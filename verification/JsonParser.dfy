/** What the recursive descent of json.c makes of a text, cursor quirks included. */
module JsonParser {

  datatype Value =
    | JString(text: string)
    | JNumber(digits: string)
    | JTrue
    | JFalse
    | JNull
    | JArray(items: seq<Value>)
    | JObject(props: seq<Property>)

  datatype Property = Property(key: string, value: Value)

  /** The codes 1, 0 and -1, and a recursion that never ends. */
  datatype Outcome<T> = Parsed(value: T, next: nat) | NoMatch | Failed | Endless

  predicate IsSpace(c: char) {
    c == ' ' || '\t' <= c <= '\r'
  }

  predicate IsDigit(c: char) {
    '0' <= c <= '9'
  }

  /** Where the cursor stands when the character read at p is put back: at the end of the text
      nothing was read, and the cursor steps back onto the last character. */
  function Back(t: string, p: nat): (r: nat)
    requires p <= |t| && t != []
    ensures r < |t| && r <= p <= r + 1
  {
    if p == |t| then p - 1 else p
  }

  /** json_skip_whitespace */
  function Skip(t: string, p: nat): (r: nat)
    requires p <= |t| && t != []
    ensures r < |t| && p <= r + 1 && (p < |t| ==> p <= r)
    decreases |t| - p
  {
    if p < |t| && IsSpace(t[p]) then Skip(t, p + 1) else Back(t, p)
  }

  /** The rest of a string from p on, behind the text stored: 127 characters at most, and the
      one read when the buffer is full is lost. */
  function StringFrom(t: string, p: nat, text: string): (r: Outcome<string>)
    requires p <= |t| && |text| <= 127
    ensures r.Parsed? ==> p < r.next <= |t| && |r.value| <= 127
    decreases |t| - p
  {
    if p == |t| || t[p] == '\0' then Failed
    else if t[p] == '"' || |text| == 127 then Parsed(text, p + 1)
    else StringFrom(t, p + 1, text + [t[p]])
  }

  /** json_parse_string */
  function ParseString(t: string, p: nat): (r: Outcome<string>)
    requires p < |t|
    ensures r.Parsed? ==> t[p] == '"' && p + 1 < r.next <= |t| && |r.value| <= 127
  {
    if t[p] == '"' then StringFrom(t, p + 1, "") else NoMatch
  }

  /** json_parse_number, from p on, behind the digits read. */
  function NumberFrom(t: string, p: nat, digits: string): (r: Outcome<string>)
    requires p <= |t| && t != [] && |digits| <= 19
    ensures r.Parsed? ==> r.next < |t| && p <= r.next + 1 && 1 <= |r.value| <= 19
    ensures r.Parsed? || r.NoMatch?
    decreases |t| - p
  {
    if p < |t| && IsDigit(t[p]) && |digits| < 19 then NumberFrom(t, p + 1, digits + [t[p]])
    else if digits == "" then NoMatch
    else Parsed(digits, Back(t, p))
  }

  /** The rest of a keyword: all letters but the last have to agree. */
  function KeywordFrom(t: string, word: string, v: Value, i: nat, p: nat): (r: Outcome<Value>)
    requires p <= |t| && t != [] && i <= |word|
    ensures r.Parsed? ==> r.value == v && r.next < |t| && p <= r.next + 1
    decreases |word| - i
  {
    if i < |word| && p < |t| && word[i] == t[p] then KeywordFrom(t, word, v, i + 1, p + 1)
    else if i == |word| || i + 1 == |word| then Parsed(v, Back(t, p))
    else Failed
  }

  /** json_parse_keyword */
  function ParseKeyword(t: string, p: nat): (r: Outcome<Value>)
    requires p < |t|
    ensures r.Parsed? ==> t[p] in "tfn" && p <= r.next < |t|
  {
    if t[p] == 't' then KeywordFrom(t, "true", JTrue, 1, p + 1)
    else if t[p] == 'f' then KeywordFrom(t, "false", JFalse, 1, p + 1)
    else if t[p] == 'n' then KeywordFrom(t, "null", JNull, 1, p + 1)
    else NoMatch
  }

  /** A string, number or keyword, and the cursor behind the white space after it. */
  function ParseScalar(t: string, p: nat): (r: Outcome<Value>)
    requires p < |t|
    ensures r.Parsed? ==> p <= r.next < |t| && t[p] != ','
    ensures !r.NoMatch? && !r.Endless?
  {
    var s := ParseString(t, p);
    if s.Parsed? then Parsed(JString(s.value), Skip(t, s.next))
    else if s.Failed? then Failed
    else
      var n := NumberFrom(t, p, "");
      if n.Parsed? then Parsed(JNumber(n.value), Skip(t, n.next))
      else
        var k := ParseKeyword(t, p);
        if k.Parsed? then Parsed(k.value, Skip(t, k.next)) else Failed
  }

  /** json_parse_value, at p behind the white space. */
  function ParseValue(t: string, p: nat): (r: Outcome<Value>)
    requires p < |t|
    ensures r.Parsed? ==> p <= r.next < |t| && (t[r.next] == ',' ==> p < r.next)
    ensures !r.NoMatch?
    decreases |t| - p, 1
  {
    if t[p] == '{' then ParseProperties(t, p, p + 1, [])
    else if t[p] == '[' then ParseElements(t, p, p + 1, [])
    else ParseScalar(t, p)
  }

  /** The elements of the array at p, from cursor q on, behind those in items. */
  function ParseElements(t: string, p: nat, q: nat, items: seq<Value>): (r: Outcome<Value>)
    requires p < q <= |t|
    ensures r.Parsed? ==> p < r.next < |t|
    ensures !r.NoMatch?
    decreases |t| - p, 0, |t| - Skip(t, q)
  {
    var e := Skip(t, q);
    if e == p then Endless
    else
      var v := ParseValue(t, e);
      if !v.Parsed? then v
      else if t[v.next] == ']' then Parsed(JArray(items + [v.value]), Skip(t, v.next + 1))
      else if t[v.next] == ',' then ParseElements(t, p, v.next + 1, items + [v.value])
      else Failed
  }

  /** json_parse_property from cursor q on. */
  function ParseProperty(t: string, p: nat, q: nat): (r: Outcome<Property>)
    requires p < q <= |t| && t[p] == '{'
    ensures r.Parsed? ==> p <= Skip(t, q) < r.next < |t|
    ensures !r.NoMatch?
    decreases |t| - p, 0, |t| - Skip(t, q), 0
  {
    var k := ParseString(t, Skip(t, q));
    if !k.Parsed? then Failed
    else
      var c := Skip(t, k.next);
      if t[c] != ':' then Failed
      else
        var v := ParseValue(t, Skip(t, c + 1));
        if v.Parsed? then Parsed(Property(k.value, v.value), v.next)
        else if v.Endless? then Endless
        else Failed
  }

  /** The properties of the object at p, from cursor q on, behind those in props. */
  function ParseProperties(t: string, p: nat, q: nat, props: seq<Property>): (r: Outcome<Value>)
    requires p < q <= |t| && t[p] == '{'
    ensures r.Parsed? ==> p < r.next < |t|
    ensures !r.NoMatch?
    decreases |t| - p, 0, |t| - Skip(t, q), 1
  {
    var v := ParseProperty(t, p, q);
    if v.Endless? then Endless
    else if !v.Parsed? then Failed
    else if t[v.next] == '}' then Parsed(JObject(props + [v.value]), Skip(t, v.next + 1))
    else if t[v.next] == ',' then ParseProperties(t, p, v.next + 1, props + [v.value])
    else Failed
  }

  /** json_parse of a text that is not empty. */
  function Parse(t: string): Outcome<Value>
    requires t != []
  {
    ParseValue(t, Skip(t, 0))
  }

  // ----- Ending -----

  /** An opening bracket at the very end is read again and again, as the first element of itself. */
  lemma {:induction false} BracketLoops(t: string, p: nat)
    requires p + 1 == |t| && t[p] == '['
    ensures Skip(t, p + 1) == p && ParseValue(t, p) == Endless
  {
  }

  // ----- Exactly when it does not end -----

  /** The positions at which the descent from p looks for a value. */
  ghost function Visits(t: string, p: nat): set<nat>
    requires p < |t|
    decreases |t| - p, 1
  {
    {p} + if t[p] == '{' then PropertyVisits(t, p, p + 1) else if t[p] == '[' then ElementVisits(t, p, p + 1) else {}
  }

  ghost function ElementVisits(t: string, p: nat, q: nat): set<nat>
    requires p < q <= |t|
    decreases |t| - p, 0, |t| - Skip(t, q)
  {
    var e := Skip(t, q);
    if e == p then {p}
    else
      var v := ParseValue(t, e);
      Visits(t, e) + if v.Parsed? && t[v.next] == ',' then ElementVisits(t, p, v.next + 1) else {}
  }

  ghost function PropertyVisits(t: string, p: nat, q: nat): set<nat>
    requires p < q <= |t| && t[p] == '{'
    decreases |t| - p, 0, |t| - Skip(t, q)
  {
    var k := ParseString(t, Skip(t, q));
    if !k.Parsed? then {}
    else
      var c := Skip(t, k.next);
      if t[c] != ':' then {}
      else
        var v := ParseValue(t, Skip(t, c + 1));
        Visits(t, Skip(t, c + 1)) + if v.Parsed? && t[v.next] == ',' then PropertyVisits(t, p, v.next + 1) else {}
  }

  /** The descent never ends if and only if it looks for a value at the last character and finds
      an opening bracket there. */
  lemma {:induction false} EndlessExact(t: string, p: nat)
    requires p < |t|
    ensures ParseValue(t, p) == Endless <==> t[|t| - 1] == '[' && |t| - 1 in Visits(t, p)
    decreases |t| - p, 1
  {
    hide ParseScalar; hide StringFrom;
    if t[p] == '{' {
      PropertiesExact(t, p, p + 1, []);
    } else if t[p] == '[' {
      ElementsExact(t, p, p + 1, []);
    }
  }

  lemma {:induction false} ElementsExact(t: string, p: nat, q: nat, items: seq<Value>)
    requires p < q <= |t| && t[p] == '['
    ensures ParseElements(t, p, q, items) == Endless <==> t[|t| - 1] == '[' && |t| - 1 in ElementVisits(t, p, q)
    decreases |t| - p, 0, |t| - Skip(t, q)
  {
    hide ParseValue; hide Visits; hide Skip;
    var e := Skip(t, q);
    if e != p {
      EndlessExact(t, e);
      var v := ParseValue(t, e);
      if v.Parsed? && t[v.next] == ',' {
        ElementsExact(t, p, v.next + 1, items + [v.value]);
      }
    }
  }

  lemma {:induction false} PropertiesExact(t: string, p: nat, q: nat, props: seq<Property>)
    requires p < q <= |t| && t[p] == '{'
    ensures ParseProperties(t, p, q, props) == Endless <==> t[|t| - 1] == '[' && |t| - 1 in PropertyVisits(t, p, q)
    decreases |t| - p, 0, |t| - Skip(t, q)
  {
    hide ParseValue; hide Visits; hide Skip; hide ParseString;
    var k := ParseString(t, Skip(t, q));
    if k.Parsed? {
      var c := Skip(t, k.next);
      if t[c] == ':' {
        EndlessExact(t, Skip(t, c + 1));
        var v := ParseValue(t, Skip(t, c + 1));
        if v.Parsed? && t[v.next] == ',' {
          PropertiesExact(t, p, v.next + 1, props + [Property(k.value, v.value)]);
        }
      }
    }
  }

  /** So on a text that does not end in an opening bracket the descent always comes to an end. */
  lemma {:induction false} AlwaysEnds(t: string)
    requires t != [] && t[|t| - 1] != '['
    ensures Parse(t) != Endless
  {
    EndlessExact(t, Skip(t, 0));
  }
}
