/** What the parser of json.c takes for a keyword, a string, and a tree: exactly which pieces of text, and
    exactly which values. */
module JsonAccepted {
  import opened JsonParser
  import opened JsonRoundTrip

  // ----- Keywords -----

  lemma {:induction false} HereNext(t: string, p: nat, s: string)
    requires s != []
    ensures Here(t, p, s) <==> p < |t| && t[p] == s[0] && Here(t, p + 1, s[1..])
  {
    if p < |t| && t[p] == s[0] && Here(t, p + 1, s[1..]) {
      assert t[p..p + |s|] == [t[p]] + t[p + 1..p + |s|];
      assert s == [s[0]] + s[1..];
    }
    if Here(t, p, s) {
      HereAt(t, p, s, 0);
      assert t[p + 1..p + |s|] == t[p..p + |s|][1..];
    }
  }

  /** The rest of a keyword is taken exactly if all its letters but the last are there. */
  lemma {:induction false} KeywordExact(t: string, word: string, v: Value, i: nat, p: nat)
    requires t != [] && i < |word| && p <= |t|
    ensures KeywordFrom(t, word, v, i, p).Parsed? <==> Here(t, p, word[i..|word| - 1])
    decreases |word| - i
  {
    hide Here;
    var rest := word[i..|word| - 1];
    if i + 1 == |word| {
      NothingHere(t, p);
    } else {
      HereNext(t, p, rest);
      assert rest[1..] == word[i + 1..|word| - 1];
      if p < |t| && word[i] == t[p] {
        KeywordExact(t, word, v, i + 1, p + 1);
      }
    }
  }

  lemma {:induction false} NothingHere(t: string, p: nat)
    requires p <= |t|
    ensures Here(t, p, "")
  {
  }

  /** At a position a keyword is taken exactly if all letters but the last of one of the three are there. */
  lemma {:induction false} KeywordsExact(t: string, p: nat)
    requires p < |t|
    ensures ParseKeyword(t, p).Parsed? <==> Here(t, p, "tru") || Here(t, p, "fals") || Here(t, p, "nul")
  {
    hide Here; hide KeywordFrom;
    KeywordExact(t, "true", JTrue, 1, p + 1);
    KeywordExact(t, "false", JFalse, 1, p + 1);
    KeywordExact(t, "null", JNull, 1, p + 1);
    HereNext(t, p, "tru");
    HereNext(t, p, "fals");
    HereNext(t, p, "nul");
    assert "true"[1..3] == "tru"[1..] && "false"[1..4] == "fals"[1..] && "null"[1..3] == "nul"[1..];
  }

  /** A wrong last letter, and none at all. */
  lemma {:induction false} LooseKeywords()
    ensures Parse("trux") == Parsed(JTrue, 3) && Parse("tru") == Parsed(JTrue, 2)
  {
    var a, b := "trux", "tru";
    assert KeywordFrom(a, "true", JTrue, 3, 3) == Parsed(JTrue, 3);
    assert KeywordFrom(a, "true", JTrue, 2, 2) == Parsed(JTrue, 3);
    assert KeywordFrom(a, "true", JTrue, 1, 1) == Parsed(JTrue, 3);
    assert KeywordFrom(b, "true", JTrue, 3, 3) == Parsed(JTrue, 2);
    assert KeywordFrom(b, "true", JTrue, 2, 2) == Parsed(JTrue, 2);
    assert KeywordFrom(b, "true", JTrue, 1, 1) == Parsed(JTrue, 2);
  }

  // ----- Strings -----

  predicate NoQuote(s: string) {
    forall i :: 0 <= i < |s| ==> s[i] != '"' && s[i] != '\0'
  }

  /** The rest s of a string is taken at p: up to a quote, or up to 127 characters and one more, which
      is lost. */
  predicate Taken(t: string, p: nat, room: nat, s: string) {
    && NoQuote(s) && |s| <= room && Here(t, p, s) && p + |s| < |t|
    && (t[p + |s|] == '"' || (|s| == room && t[p + |s|] != '\0'))
  }

  lemma {:induction false} StringFromExact(t: string, p: nat, text: string, s: string, next: nat)
    requires p <= |t| && |text| <= 127
    ensures StringFrom(t, p, text) == Parsed(text + s, next) <==> Taken(t, p, 127 - |text|, s) && next == p + |s| + 1
    decreases |t| - p
  {
    hide Here;
    if s == [] {
      assert text + s == text;
      NothingHere(t, p);
      if p < |t| && t[p] != '\0' && t[p] != '"' && |text| < 127 {
        StringGrows(t, p + 1, text + [t[p]]);
      }
    } else {
      HereNext(t, p, s);
      if p < |t| && t[p] != '\0' && t[p] != '"' && |text| < 127 {
        if t[p] == s[0] {
          assert text + s == text + [t[p]] + s[1..];
          StringFromExact(t, p + 1, text + [t[p]], s[1..], next);
          assert NoQuote(s) <==> NoQuote(s[1..]) by {
            assert s == [s[0]] + s[1..];
          }
        } else {
          StringGrows(t, p + 1, text + [t[p]]);
          assert (text + s)[|text|] == s[0];
        }
      } else {
        assert |text + s| > |text|;
        assert p < |t| && (t[p] == '\0' || t[p] == '"') ==> !NoQuote(s) || t[p] != s[0];
      }
    }
  }

  lemma {:induction false} StringGrows(t: string, p: nat, text: string)
    requires p <= |t| && |text| <= 127
    ensures var r := StringFrom(t, p, text); r.Parsed? ==> |text| <= |r.value| && r.value[..|text|] == text
    decreases |t| - p
  {
    if p < |t| && t[p] != '\0' && t[p] != '"' && |text| < 127 {
      StringGrows(t, p + 1, text + [t[p]]);
    }
  }

  /** A string is read as s exactly if it stands in quotes, or its first 127 characters are s and one
      more follows, which is lost. */
  lemma {:induction false} StringExact(t: string, p: nat, s: string, next: nat)
    requires p < |t| && t[p] == '"'
    ensures ParseString(t, p) == Parsed(s, next) <==>
      && Quotable(s) && next == p + |s| + 2
      && (Here(t, p, Quoted(s)) || (|s| == 127 && Here(t, p, ['"'] + s) && p + 128 < |t| && t[p + 128] != '\0'))
  {
    hide Here;
    StringFromExact(t, p + 1, "", s, next);
    assert "" + s == s;
    HereNext(t, p, ['"'] + s);
    HereNext(t, p, Quoted(s));
    assert (['"'] + s)[1..] == s && Quoted(s)[1..] == s + ['"'];
    HereSnoc(t, p + 1, s, '"');
  }

  lemma {:induction false} HereSnoc(t: string, p: nat, s: string, c: char)
    ensures Here(t, p, s + [c]) <==> Here(t, p, s) && p + |s| < |t| && t[p + |s|] == c
  {
    if Here(t, p, s + [c]) {
      HereSplit(t, p, s, [c]);
    }
    assert p + |s| < |t| ==> t[p..p + |s| + 1] == t[p..p + |s|] + [t[p + |s|]];
  }

  // ----- Trees -----

  lemma {:induction false} StringQuotable(t: string, p: nat, text: string)
    requires p <= |t| && Quotable(text)
    ensures var r := StringFrom(t, p, text); r.Parsed? ==> Quotable(r.value)
    decreases |t| - p
  {
    if p < |t| && t[p] != '\0' && t[p] != '"' && |text| < 127 {
      StringQuotable(t, p + 1, text + [t[p]]);
    }
  }

  lemma {:induction false} NumberDigits(t: string, p: nat, digits: string)
    requires p <= |t| && t != [] && |digits| <= 19 && forall i :: 0 <= i < |digits| ==> IsDigit(digits[i])
    ensures var r := NumberFrom(t, p, digits); r.Parsed? ==> Digits(r.value)
    decreases |t| - p
  {
    if p < |t| && IsDigit(t[p]) && |digits| < 19 {
      NumberDigits(t, p + 1, digits + [t[p]]);
    }
  }

  lemma {:induction false} ScalarPrintable(t: string, p: nat)
    requires p < |t|
    ensures var r := ParseScalar(t, p); r.Parsed? ==> Printable(r.value)
  {
    hide StringFrom; hide NumberFrom; hide Skip;
    if t[p] == '"' {
      StringQuotable(t, p + 1, "");
    }
    NumberDigits(t, p, "");
    KeywordValue(t, p);
  }

  lemma {:induction false} KeywordValue(t: string, p: nat)
    requires p < |t|
    ensures var r := ParseKeyword(t, p); r.Parsed? ==> r.value == JTrue || r.value == JFalse || r.value == JNull
  {
    hide KeywordFrom;
  }

  lemma {:induction false} AllPrintableSnoc(vs: seq<Value>, v: Value)
    requires AllPrintable(vs) && Printable(v)
    ensures AllPrintable(vs + [v])
  {
    hide Printable;
    if vs == [] {
      assert [v][1..] == [];
    } else {
      AllPrintableSnoc(vs[1..], v);
      assert (vs + [v])[1..] == vs[1..] + [v];
    }
  }

  lemma {:induction false} PropsPrintableSnoc(ps: seq<Property>, q: Property)
    requires PropsPrintable(ps) && Quotable(q.key) && Printable(q.value)
    ensures PropsPrintable(ps + [q])
  {
    hide Printable; hide Quotable;
    if ps == [] {
      assert [q][1..] == [];
    } else {
      PropsPrintableSnoc(ps[1..], q);
      assert (ps + [q])[1..] == ps[1..] + [q];
    }
  }

  /** Whatever is parsed has short strings, 1 to 19 digits and no empty arrays or objects. */
  lemma {:induction false} ParsedPrintable(t: string, p: nat)
    requires p < |t|
    ensures var r := ParseValue(t, p); r.Parsed? ==> Printable(r.value)
    decreases |t| - p, 1
  {
    hide ParseScalar; hide Printable;
    if t[p] == '{' {
      PropertiesPrintable(t, p, p + 1, []);
    } else if t[p] == '[' {
      ElementsPrintable(t, p, p + 1, []);
    } else {
      ScalarPrintable(t, p);
    }
  }

  lemma {:induction false} ElementsPrintable(t: string, p: nat, q: nat, items: seq<Value>)
    requires p < q <= |t| && AllPrintable(items)
    ensures var r := ParseElements(t, p, q, items); r.Parsed? ==> Printable(r.value)
    decreases |t| - p, 0, |t| - Skip(t, q)
  {
    hide ParseScalar; hide Skip;
    var e := Skip(t, q);
    if e != p {
      ParsedPrintable(t, e);
      var v := ParseValue(t, e);
      if v.Parsed? {
        AllPrintableSnoc(items, v.value);
        if t[v.next] == ',' {
          ElementsPrintable(t, p, v.next + 1, items + [v.value]);
        }
      }
    }
  }

  lemma {:induction false} PropertiesPrintable(t: string, p: nat, q: nat, props: seq<Property>)
    requires p < q <= |t| && t[p] == '{' && PropsPrintable(props)
    ensures var r := ParseProperties(t, p, q, props); r.Parsed? ==> Printable(r.value)
    decreases |t| - p, 0, |t| - Skip(t, q)
  {
    hide StringFrom; hide Skip; hide Quotable; hide ParseValue;
    var k := ParseString(t, Skip(t, q));
    if k.Parsed? {
      NothingQuoted();
      StringQuotable(t, Skip(t, q) + 1, "");
      var c := Skip(t, k.next);
      if t[c] == ':' {
        ParsedPrintable(t, Skip(t, c + 1));
        var v := ParseValue(t, Skip(t, c + 1));
        if v.Parsed? {
          var prop := Property(k.value, v.value);
          PropsPrintableSnoc(props, prop);
          if t[v.next] == ',' {
            PropertiesPrintable(t, p, v.next + 1, props + [prop]);
          }
        }
      }
    }
  }

  lemma {:induction false} NothingQuoted()
    ensures Quotable("")
  {
  }

  /** Some text is parsed to v if and only if v has short strings, 1 to 19 digits and no empty arrays
      or objects. */
  lemma {:induction false} ValuesExact(v: Value)
    ensures (exists t: string :: t != [] && Parse(t).Parsed? && Parse(t).value == v) <==> Printable(v)
  {
    hide ParseValue; hide Printable; hide DocText;
    if t: string :| t != [] && Parse(t).Parsed? && Parse(t).value == v {
      ParsedPrintable(t, Skip(t, 0));
    }
    if Printable(v) {
      NothingBlank();
      EveryTree(v, "", "");
      var t := DocText(Doc("", Plain(v), ""));
      assert t != [] && Parse(t).Parsed? && Parse(t).value == v;
    }
  }

  lemma {:induction false} NothingBlank()
    ensures Blank("")
  {
  }

  // ----- A closing bracket that is missing -----

  /** The elements of an array without the closing bracket. */
  function OpenText(ds: seq<Doc>): string {
    if ds == [] then "" else if |ds| == 1 then DocText(ds[0]) else DocText(ds[0]) + "," + OpenText(ds[1..])
  }

  function OpenMembers(ms: seq<Member>): string {
    if ms == [] then "" else if |ms| == 1 then MemberText(ms[0]) else MemberText(ms[0]) + "," + OpenMembers(ms[1..])
  }

  lemma {:induction false} OpenDocs(t: string, p: nat, q: nat, ds: seq<Doc>, items: seq<Value>)
    requires p < q && ds != [] && GoodDocs(ds) && Here(t, q, OpenText(ds)) && q + |OpenText(ds)| == |t|
    ensures t != [] && q <= |t|
    ensures ParseElements(t, p, q, items)
         == if t[|t| - 1] == ']' then Parsed(JArray(items + Trees(ds)), |t| - 1) else Failed
    decreases |ds|
  {
    hide Here; hide Skip; hide ParseValue; hide GoodDoc; hide Tree; hide DocText;
    var d := ds[0];
    if |ds| == 1 {
      assert ds[1..] == [] && Trees(ds) == [Tree(d.core)];
      DocRead(t, q, d);
      PrintedLast(t, q, d);
      SkipEnd(t);
    } else {
      var more := ds[1..];
      assert OpenText(ds) == DocText(d) + ("," + OpenText(more));
      HereSplit(t, q, DocText(d), "," + OpenText(more));
      var q1 := q + |DocText(d)|;
      HereSplit(t, q1, ",", OpenText(more));
      HereAt(t, q1, ",", 0);
      HereIn(t, q1, ",");
      DocRead(t, q, d);
      OpenDocs(t, p, q1 + 1, more, items + [Tree(d.core)]);
      assert items + [Tree(d.core)] + Trees(more) == items + Trees(ds);
    }
  }

  lemma {:induction false} SkipEnd(t: string)
    requires t != []
    ensures Skip(t, |t|) == |t| - 1
  {
  }

  /** A printed value does not end in a comma. */
  lemma {:induction false} PrintedLast(t: string, q: nat, d: Doc)
    requires GoodDoc(d) && Here(t, q, DocText(d)) && q + |DocText(d)| == |t|
    ensures DocText(d) != [] && t[|t| - 1] != ','
  {
    hide Here; hide DocText;
    NoComma(d);
    HereAt(t, q, DocText(d), |DocText(d)| - 1);
  }

  lemma {:induction false} NoComma(d: Doc)
    requires GoodDoc(d)
    ensures DocText(d) != [] && DocText(d)[|DocText(d)| - 1] != ','
  {
    hide DocsText; hide MembersText; hide GoodDocs; hide GoodMembers;
    match d.core {
      case CArray(items) => DocsTextCloses(items);
      case CObject(ms) => MembersTextCloses(ms);
      case _ =>
    }
  }

  lemma {:induction false} DocsTextCloses(ds: seq<Doc>)
    requires ds != []
    ensures DocsText(ds) != [] && DocsText(ds)[|DocsText(ds)| - 1] == ']'
  {
    hide DocText;
    if |ds| > 1 {
      DocsTextCloses(ds[1..]);
    }
  }

  lemma {:induction false} MembersTextCloses(ms: seq<Member>)
    requires ms != []
    ensures MembersText(ms) != [] && MembersText(ms)[|MembersText(ms)| - 1] == '}'
  {
    hide MemberText;
    if |ms| > 1 {
      MembersTextCloses(ms[1..]);
    }
  }

  lemma {:induction false} OpenMember(t: string, p: nat, q: nat, m: Member)
    requires p < q && p < |t| && t[p] == '{' && Here(t, q, MemberText(m)) && Stop(t, q + |MemberText(m)|)
    requires Blank(m.before) && Quotable(m.key) && Blank(m.mid) && GoodDoc(m.value)
    ensures ParseProperty(t, p, q) == Parsed(Property(m.key, Tree(m.value.core)), Back(t, q + |MemberText(m)|))
  {
    hide Here; hide Skip; hide ParseValue; hide Stop; hide GoodDoc; hide Tree; hide DocText; hide Quoted; hide ParseString;
    hide Blank; hide Quotable;
    var head := m.before + (Quoted(m.key) + (m.mid + ":"));
    assert MemberText(m) == head + DocText(m.value);
    HereSplit(t, q, head, DocText(m.value));
    KeyRead(t, q, m.before, m.key, m.mid);
    DocRead(t, q + |head|, m.value);
  }

  lemma {:induction false} MemberLast(t: string, q: nat, m: Member)
    requires GoodDoc(m.value) && Here(t, q, MemberText(m)) && q + |MemberText(m)| == |t|
    ensures t != [] && t[|t| - 1] != ','
  {
    hide Here; hide DocText; hide Quoted; hide GoodDoc;
    var head := m.before + (Quoted(m.key) + (m.mid + ":"));
    assert MemberText(m) == head + DocText(m.value);
    HereSplit(t, q, head, DocText(m.value));
    PrintedLast(t, q + |head|, m.value);
  }

  lemma {:induction false} PropsEnd(t: string, p: nat, q: nat, v: Property, props: seq<Property>)
    requires p < q <= |t| && t[p] == '{' && ParseProperty(t, p, q) == Parsed(v, |t| - 1) && t[|t| - 1] != ','
    ensures ParseProperties(t, p, q, props)
         == if t[|t| - 1] == '}' then Parsed(JObject(props + [v]), |t| - 1) else Failed
  {
    hide ParseProperty; hide Skip;
    SkipEnd(t);
  }

  lemma {:induction false} PropsNext(t: string, p: nat, q: nat, v: Property, q1: nat, props: seq<Property>)
    requires p < q <= |t| && t[p] == '{' && q1 < |t| && ParseProperty(t, p, q) == Parsed(v, q1) && t[q1] == ','
    ensures ParseProperties(t, p, q, props) == ParseProperties(t, p, q1 + 1, props + [v])
  {
    hide ParseProperty; hide Skip;
  }

  lemma {:induction false} OpenProps(t: string, p: nat, q: nat, ms: seq<Member>, props: seq<Property>)
    requires p < q && p < |t| && t[p] == '{' && ms != [] && GoodMembers(ms)
    requires Here(t, q, OpenMembers(ms)) && q + |OpenMembers(ms)| == |t|
    ensures ParseProperties(t, p, q, props)
         == if t[|t| - 1] == '}' then Parsed(JObject(props + Properties(ms)), |t| - 1) else Failed
    decreases |ms|
  {
    hide Here; hide Skip; hide ParseProperty; hide GoodDoc; hide Tree; hide MemberText; hide Blank; hide Quotable;
    hide ParseProperties;
    var m := ms[0];
    var v := Property(m.key, Tree(m.value.core));
    if |ms| == 1 {
      assert ms[1..] == [] && Properties(ms) == [v];
      OpenMember(t, p, q, m);
      MemberLast(t, q, m);
      PropsEnd(t, p, q, v, props);
    } else {
      var more := ms[1..];
      assert OpenMembers(ms) == MemberText(m) + ("," + OpenMembers(more));
      HereSplit(t, q, MemberText(m), "," + OpenMembers(more));
      var q1 := q + |MemberText(m)|;
      HereSplit(t, q1, ",", OpenMembers(more));
      HereAt(t, q1, ",", 0);
      HereIn(t, q1, ",");
      OpenMember(t, p, q, m);
      PropsNext(t, p, q, v, q1, props);
      OpenProps(t, p, q1 + 1, more, props + [v]);
      assert props + [v] + Properties(more) == props + Properties(ms);
    }
  }

  /** An array whose closing bracket is missing at the end of the text is taken if and only if the text
      still ends in one, that of its last element: the cursor steps back onto it. */
  lemma {:induction false} UnclosedArray(ds: seq<Doc>)
    requires ds != [] && GoodDocs(ds)
    ensures var t := "[" + OpenText(ds);
      Parse(t) == if t[|t| - 1] == ']' then Parsed(JArray(Trees(ds)), |t| - 1) else Failed
  {
    hide ParseElements; hide OpenText;
    var t := "[" + OpenText(ds);
    assert t[1..] == OpenText(ds) && t[0] == '[';
    assert Here(t, 1, OpenText(ds));
    OpenDocs(t, 0, 1, ds, []);
    assert [] + Trees(ds) == Trees(ds);
    assert Skip(t, 0) == 0;
  }

  /** So is an object. */
  lemma {:induction false} UnclosedObject(ms: seq<Member>)
    requires ms != [] && GoodMembers(ms)
    ensures var t := "{" + OpenMembers(ms);
      Parse(t) == if t[|t| - 1] == '}' then Parsed(JObject(Properties(ms)), |t| - 1) else Failed
  {
    hide ParseProperties; hide OpenMembers;
    var t := "{" + OpenMembers(ms);
    assert t[1..] == OpenMembers(ms) && t[0] == '{';
    assert Here(t, 1, OpenMembers(ms));
    OpenProps(t, 0, 1, ms, []);
    assert [] + Properties(ms) == Properties(ms);
    assert Skip(t, 0) == 0;
  }
}
