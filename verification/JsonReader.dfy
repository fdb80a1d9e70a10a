/** The parser of json.c as it runs: a cursor moved by input and unput. */
module JsonReader {
  import opened JsonParser

  /** The code returned, as the outcome says. */
  ghost predicate Says<T>(ret: int, r: Outcome<T>) {
    match r
    case Parsed(_, _) => ret == 1
    case NoMatch => ret == 0
    case Failed => ret == -1
    case Endless => false
  }

  class Reader {
    const text: string
    var pos: nat

    /** The text is not empty and the cursor is in range. */
    ghost predicate Valid()
      reads this
    {
      text != [] && pos <= |text|
    }

    constructor (text: string)
      requires text != []
      ensures Valid() && pos == 0 && this.text == text
    {
      this.text := text;
      pos := 0;
    }

    method Input() returns (ch: char)
      requires Valid()
      modifies this
      ensures Valid()
      ensures if old(pos) == |text| then ch == '\0' && pos == old(pos) else ch == text[old(pos)] && pos == old(pos) + 1
    {
      if pos >= |text| {
        return '\0';
      }
      ch := text[pos];
      pos := pos + 1;
    }

    method Unput()
      requires Valid() && pos > 0
      modifies this
      ensures Valid() && pos == old(pos) - 1
    {
      pos := pos - 1;
    }

    method SkipWhitespace()
      requires Valid()
      modifies this
      ensures Valid() && pos == Skip(text, old(pos))
    {
      var ch := Input();
      ghost var p := old(pos);
      while ch != '\0' && IsSpace(ch)
        invariant Valid() && p <= |text| && Skip(text, p) == Skip(text, old(pos))
        invariant if p == |text| then ch == '\0' && pos == p else ch == text[p] && pos == p + 1
        decreases |text| - p
      {
        p := p + 1;
        ch := Input();
      }
      Unput();
    }

    method ReadString() returns (ret: int, value: string)
      requires Valid() && pos < |text|
      modifies this
      ensures Valid() && Says(ret, ParseString(text, old(pos)))
      ensures ret == 0 ==> pos == old(pos)
      ensures ret == 1 ==> ParseString(text, old(pos)) == Parsed(value, pos)
    {
      value := "";
      var ch := Input();
      if ch != '"' {
        Unput();
        return 0, "";
      }
      ch := Input();
      ghost var p := old(pos) + 1;
      while ch != '\0' && ch != '"' && |value| < 127
        invariant Valid() && p <= |text| && |value| <= 127
        invariant StringFrom(text, p, value) == StringFrom(text, old(pos) + 1, "")
        invariant if p == |text| then ch == '\0' && pos == p else ch == text[p] && pos == p + 1
        decreases |text| - p
      {
        value := value + [ch];
        p := p + 1;
        ch := Input();
      }
      if ch == '\0' {
        return -1, "";
      }
      return 1, value;
    }

    method ReadNumber() returns (ret: int, value: string)
      requires Valid() && pos < |text|
      modifies this
      ensures Valid() && Says(ret, NumberFrom(text, old(pos), ""))
      ensures ret == 0 ==> pos == old(pos)
      ensures ret == 1 ==> NumberFrom(text, old(pos), "") == Parsed(value, pos)
    {
      value := "";
      var ch := Input();
      ghost var p := old(pos);
      while ch != '\0' && IsDigit(ch) && |value| < 19
        invariant Valid() && p <= |text| && |value| <= 19
        invariant value == "" ==> p == old(pos)
        invariant NumberFrom(text, p, value) == NumberFrom(text, old(pos), "")
        invariant if p == |text| then ch == '\0' && pos == p else ch == text[p] && pos == p + 1
        decreases |text| - p
      {
        value := value + [ch];
        p := p + 1;
        ch := Input();
      }
      Unput();
      if value == "" {
        return 0, "";
      }
      return 1, value;
    }

    method ReadKeyword() returns (ret: int, value: Value)
      requires Valid() && pos < |text|
      modifies this
      ensures Valid() && Says(ret, ParseKeyword(text, old(pos)))
      ensures ret == 0 ==> pos == old(pos)
      ensures ret == 1 ==> ParseKeyword(text, old(pos)) == Parsed(value, pos)
    {
      var ch := Input();
      var word: string;
      if ch == 't' {
        word, value := "true", JTrue;
      } else if ch == 'f' {
        word, value := "false", JFalse;
      } else if ch == 'n' {
        word, value := "null", JNull;
      } else {
        Unput();
        return 0, JNull;
      }
      ret := MatchWord(word, value, ch);
    }

    /** The loop over the letters, of which the first has been read. */
    method MatchWord(word: string, ghost value: Value, first: char) returns (ret: int)
      requires Valid() && 0 < pos && first == text[pos - 1] && |word| > 0 && word[0] == first && '\0' !in word
      modifies this
      ensures Valid()
      ensures Says(ret, KeywordFrom(text, word, value, 1, old(pos))) && ret != 0
      ensures ret == 1 ==> KeywordFrom(text, word, value, 1, old(pos)) == Parsed(value, pos)
    {
      var ch := first;
      var m := 0;
      ghost var p: nat := pos - 1;
      while m < |word|
        invariant Valid() && p <= |text| && m <= |word|
        invariant KeywordFrom(text, word, value, m, p) == KeywordFrom(text, word, value, 1, old(pos))
        invariant if p == |text| then ch == '\0' && pos == p else ch == text[p] && pos == p + 1
        invariant pos > 0
        decreases |word| - m
      {
        m := m + 1;
        if word[m - 1] != ch {
          break;
        }
        assert word[m - 1] in word;
        p := p + 1;
        ch := Input();
      }
      Unput();
      ret := if m == |word| then 1 else -1;
    }

    /** json_parse_value, wherever the descent comes to an end. */
    method ReadValue() returns (ret: int, value: Value)
      requires Valid() && ParseValue(text, Skip(text, pos)) != Endless
      modifies this
      ensures Valid() && Says(ret, ParseValue(text, Skip(text, old(pos)))) && ret != 0
      ensures ret == 1 ==> ParseValue(text, Skip(text, old(pos))) == Parsed(value, pos)
      decreases |text| - Skip(text, pos), 1
    {
      hide StringFrom; hide NumberFrom; hide ParseKeyword; hide ParseElements; hide ParseProperties;
      SkipWhitespace();
      ret, value := ReadObject();
      if ret == 0 {
        ret, value := ReadArray();
      }
      if ret == 0 {
        ret, value := ReadScalar();
        return;
      }
      SkipWhitespace();
    }

    /** The last three attempts of json_parse_value. */
    method ReadScalar() returns (ret: int, value: Value)
      requires Valid() && pos < |text|
      modifies this
      ensures Valid() && Says(ret, ParseScalar(text, old(pos))) && ret != 0
      ensures ret == 1 ==> ParseScalar(text, old(pos)) == Parsed(value, pos)
    {
      hide StringFrom; hide NumberFrom; hide ParseKeyword;
      var s: string;
      ret, s := ReadString();
      value := JString(s);
      if ret == 0 {
        ret, s := ReadNumber();
        value := JNumber(s);
      }
      if ret == 0 {
        ret, value := ReadKeyword();
      }
      if ret == 0 {
        return -1, value;
      }
      SkipWhitespace();
    }

    /** json_parse_array */
    method ReadArray() returns (ret: int, value: Value)
      requires Valid() && pos < |text|
      requires text[pos] == '[' ==> ParseElements(text, pos, pos + 1, []) != Endless
      modifies this
      ensures Valid()
      ensures text[old(pos)] != '[' ==> ret == 0 && pos == old(pos)
      ensures text[old(pos)] == '[' ==>
        var r := ParseElements(text, old(pos), old(pos) + 1, []);
        Says(ret, r) && (ret == 1 ==> r == Parsed(value, Skip(text, pos)))
      decreases |text| - pos, 0
    {
      hide ParseValue; hide Skip; hide ParseProperties;
      value := JNull;
      var ch := Input();
      if ch != '[' {
        Unput();
        return 0, value;
      }
      ghost var p := old(pos);
      var items: seq<Value> := [];
      while true
        invariant Valid() && p < pos
        invariant ParseElements(text, p, p + 1, []) == ParseElements(text, p, pos, items)
        decreases |text| - Skip(text, pos)
      {
        ghost var e := Skip(text, pos);
        var v: Value;
        ret, v := ReadValue();
        if ret <= 0 {
          return -1, value;
        }
        items := items + [v];
        ch := Input();
        if ch == ']' {
          return 1, JArray(items);
        }
        if ch != ',' {
          return -1, value;
        }
      }
    }

    /** json_parse_object */
    method ReadObject() returns (ret: int, value: Value)
      requires Valid() && pos < |text|
      requires text[pos] == '{' ==> ParseProperties(text, pos, pos + 1, []) != Endless
      modifies this
      ensures Valid()
      ensures text[old(pos)] != '{' ==> ret == 0 && pos == old(pos)
      ensures text[old(pos)] == '{' ==>
        var r := ParseProperties(text, old(pos), old(pos) + 1, []);
        Says(ret, r) && (ret == 1 ==> r == Parsed(value, Skip(text, pos)))
      decreases |text| - pos, 0
    {
      hide ParseValue; hide Skip; hide ParseElements; hide ParseProperty;
      value := JNull;
      var ch := Input();
      if ch != '{' {
        Unput();
        return 0, value;
      }
      ghost var p := old(pos);
      var props: seq<Property> := [];
      while true
        invariant Valid() && p < pos
        invariant ParseProperties(text, p, p + 1, []) == ParseProperties(text, p, pos, props)
        decreases |text| - Skip(text, pos)
      {
        var v: Property;
        ret, v := ReadProperty(p);
        if ret <= 0 {
          return -1, value;
        }
        props := props + [v];
        ch := Input();
        if ch == '}' {
          return 1, JObject(props);
        }
        if ch != ',' {
          return -1, value;
        }
      }
    }

    /** json_parse_property */
    method ReadProperty(ghost p: nat) returns (ret: int, value: Property)
      requires Valid() && p < pos && text[p] == '{' && ParseProperty(text, p, pos) != Endless
      modifies this
      ensures Valid() && Says(ret, ParseProperty(text, p, old(pos)))
      ensures ret == 1 ==> ParseProperty(text, p, old(pos)) == Parsed(value, pos)
      decreases |text| - p, 0, |text| - Skip(text, pos)
    {
      hide ParseValue; hide Skip; hide ParseElements; hide ParseProperties; hide StringFrom;
      value := Property("", JNull);
      SkipWhitespace();
      var key: string;
      ret, key := ReadString();
      if ret <= 0 {
        return -1, value;
      }
      SkipWhitespace();
      var ch := Input();
      if ch != ':' {
        return -1, value;
      }
      var v: Value;
      ret, v := ReadValue();
      if ret <= 0 {
        return -1, value;
      }
      return 1, Property(key, v);
    }

    /** json_parse_file behind the reading of the file: on every text on which the descent comes
        to an end at all, it is parsed as specified and the cursor stays in range. */
    method Read() returns (root: Outcome<Value>)
      requires Valid() && pos == 0 && Parse(text) != Endless
      modifies this
      ensures Valid()
      ensures root == Parse(text)
    {
      var ret, value := ReadValue();
      root := if ret == 1 then Parsed(value, pos) else Failed;
    }
  }
}
