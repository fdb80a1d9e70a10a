/** Every tree of the accepted subset, printed with white space anywhere, is read back. */
module JsonRoundTrip {
  import opened JsonParser

  /** A printed value: white space, the value itself, white space. */
  datatype Doc = Doc(before: string, core: Core, after: string)

  datatype Core =
    | CString(text: string)
    | CNumber(digits: string)
    | CTrue
    | CFalse
    | CNull
    | CArray(items: seq<Doc>)
    | CObject(members: seq<Member>)

  datatype Member = Member(before: string, key: string, mid: string, value: Doc)

  predicate Blank(s: string) {
    forall i :: 0 <= i < |s| ==> IsSpace(s[i])
  }

  predicate Quotable(s: string) {
    |s| <= 127 && forall i :: 0 <= i < |s| ==> s[i] != '"' && s[i] != '\0'
  }

  predicate Digits(s: string) {
    1 <= |s| <= 19 && forall i :: 0 <= i < |s| ==> IsDigit(s[i])
  }

  /** Short strings without quotes, 1 to 19 digits, no empty arrays or objects. */
  predicate GoodDoc(d: Doc) {
    Blank(d.before) && Blank(d.after) && GoodCore(d.core)
  }

  predicate GoodCore(c: Core) {
    match c
    case CString(s) => Quotable(s)
    case CNumber(s) => Digits(s)
    case CArray(items) => items != [] && GoodDocs(items)
    case CObject(ms) => ms != [] && GoodMembers(ms)
    case _ => true
  }

  predicate GoodDocs(ds: seq<Doc>) {
    ds == [] || (GoodDoc(ds[0]) && GoodDocs(ds[1..]))
  }

  predicate GoodMembers(ms: seq<Member>) {
    ms == [] ||
    (Blank(ms[0].before) && Quotable(ms[0].key) && Blank(ms[0].mid) && GoodDoc(ms[0].value) && GoodMembers(ms[1..]))
  }

  // ----- Printing -----

  function DocText(d: Doc): string {
    d.before + CoreText(d.core) + d.after
  }

  function Quoted(s: string): string {
    ['"'] + s + ['"']
  }

  function CoreText(c: Core): string {
    match c
    case CString(s) => Quoted(s)
    case CNumber(s) => s
    case CTrue => "true"
    case CFalse => "false"
    case CNull => "null"
    case CArray(items) => "[" + DocsText(items)
    case CObject(ms) => "{" + MembersText(ms)
  }

  /** The elements and the closing bracket. */
  function DocsText(ds: seq<Doc>): string {
    if ds == [] then ""
    else DocText(ds[0]) + (if |ds| == 1 then "]" else ",") + DocsText(ds[1..])
  }

  function MemberText(m: Member): string {
    m.before + Quoted(m.key) + m.mid + ":" + DocText(m.value)
  }

  /** The properties and the closing brace. */
  function MembersText(ms: seq<Member>): string {
    if ms == [] then ""
    else MemberText(ms[0]) + (if |ms| == 1 then "}" else ",") + MembersText(ms[1..])
  }

  // ----- Meaning -----

  function Tree(c: Core): Value {
    match c
    case CString(s) => JString(s)
    case CNumber(s) => JNumber(s)
    case CTrue => JTrue
    case CFalse => JFalse
    case CNull => JNull
    case CArray(items) => JArray(Trees(items))
    case CObject(ms) => JObject(Properties(ms))
  }

  function Trees(ds: seq<Doc>): seq<Value> {
    if ds == [] then [] else [Tree(ds[0].core)] + Trees(ds[1..])
  }

  function Properties(ms: seq<Member>): seq<Property> {
    if ms == [] then [] else [Property(ms[0].key, Tree(ms[0].value.core))] + Properties(ms[1..])
  }

  // ----- Places in the text -----

  /** The text s stands at p. */
  predicate Here(t: string, p: nat, s: string) {
    p + |s| <= |t| && t[p..p + |s|] == s
  }

  lemma {:induction false} HereSplit(t: string, p: nat, x: string, y: string)
    requires Here(t, p, x + y)
    ensures Here(t, p, x) && Here(t, p + |x|, y)
  {
    assert t[p..p + |x|] == (x + y)[..|x|];
    assert t[p + |x|..p + |x| + |y|] == (x + y)[|x|..];
  }

  lemma {:induction false} HereAt(t: string, p: nat, s: string, i: nat)
    requires Here(t, p, s) && i < |s|
    ensures t[p + i] == s[i]
  {
    assert t[p..p + |s|][i] == s[i];
  }

  /** The text ends at q or goes on with something that is part of no value. */
  predicate Stop(t: string, q: nat) {
    q == |t| || (q < |t| && (t[q] == ',' || t[q] == ']' || t[q] == '}'))
  }

  predicate Solid(t: string, q: nat) {
    q == |t| || (q < |t| && !IsSpace(t[q]))
  }

  lemma {:induction false} SkipBlank(t: string, p: nat, s: string)
    requires t != [] && Here(t, p, s) && Blank(s) && Solid(t, p + |s|)
    ensures Skip(t, p) == Back(t, p + |s|)
    decreases |s|
  {
    if s != "" {
      HereAt(t, p, s, 0);
      assert s == s[..1] + s[1..];
      HereSplit(t, p, s[..1], s[1..]);
      SkipBlank(t, p + 1, s[1..]);
    }
  }

  // ----- Scalars -----

  lemma {:induction false} StringRead(t: string, p: nat, s: string, text: string)
    requires Here(t, p, s + ['"']) && |text| + |s| <= 127
    requires forall i :: 0 <= i < |s| ==> s[i] != '"' && s[i] != '\0'
    ensures StringFrom(t, p, text) == Parsed(text + s, p + |s| + 1)
    decreases |s|
  {
    HereAt(t, p, s + ['"'], 0);
    if s == "" {
      assert text + s == text;
    } else {
      assert s + ['"'] == s[..1] + (s[1..] + ['"']);
      HereSplit(t, p, s[..1], s[1..] + ['"']);
      StringRead(t, p + 1, s[1..], text + [s[0]]);
      assert text + [s[0]] + s[1..] == text + s;
    }
  }

  lemma {:induction false} QuotedRead(t: string, p: nat, s: string)
    requires Here(t, p, Quoted(s)) && Quotable(s)
    ensures p < |t| && t[p] == '"' && ParseString(t, p) == Parsed(s, p + |Quoted(s)|)
  {
    HereAt(t, p, Quoted(s), 0);
    assert Quoted(s) == ['"'] + (s + ['"']);
    HereSplit(t, p, ['"'], s + ['"']);
    StringRead(t, p + 1, s, "");
    assert "" + s == s;
  }

  lemma {:induction false} NumberRead(t: string, p: nat, s: string, digits: string)
    requires t != [] && Here(t, p, s) && (p + |s| == |t| || !IsDigit(t[p + |s|]))
    requires 1 <= |digits + s| <= 19 && forall i :: 0 <= i < |s| ==> IsDigit(s[i])
    ensures NumberFrom(t, p, digits) == Parsed(digits + s, Back(t, p + |s|))
    decreases |s|
  {
    if s == "" {
      assert digits + s == digits;
    } else {
      HereAt(t, p, s, 0);
      assert s == s[..1] + s[1..];
      HereSplit(t, p, s[..1], s[1..]);
      assert digits + [s[0]] + s[1..] == digits + s;
      NumberRead(t, p + 1, s[1..], digits + [s[0]]);
    }
  }

  lemma {:induction false} WordRead(t: string, word: string, v: Value, i: nat, p: nat)
    requires t != [] && i <= |word| && Here(t, p, word[i..])
    ensures KeywordFrom(t, word, v, i, p) == Parsed(v, Back(t, p + |word| - i))
    decreases |word| - i
  {
    if i < |word| {
      HereAt(t, p, word[i..], 0);
      assert word[i..] == [word[i]] + word[i + 1..];
      HereSplit(t, p, [word[i]], word[i + 1..]);
      WordRead(t, word, v, i + 1, p + 1);
    }
  }

  /** Stepping back at the end of the text and skipping from there makes no difference. */
  lemma {:induction false} SkipBack(t: string, p: nat, s: string)
    requires t != [] && 0 < p && Here(t, p, s) && Blank(s) && Solid(t, p + |s|) && !IsSpace(t[p - 1])
    ensures Skip(t, Back(t, p)) == Back(t, p + |s|)
  {
    if p == |t| {
      assert s == "";
    } else {
      SkipBlank(t, p, s);
    }
  }

  /** What a value starts with. */
  lemma {:induction false} CoreStarts(c: Core)
    requires GoodCore(c)
    ensures |CoreText(c)| > 0 && !IsSpace(CoreText(c)[0])
  {
  }

  lemma {:induction false} StringCore(t: string, p: nat, s: string, after: string)
    requires Here(t, p, Quoted(s)) && Quotable(s) && Here(t, p + |Quoted(s)|, after) && Blank(after)
    requires Stop(t, p + |Quoted(s)| + |after|)
    ensures p < |t| && ParseValue(t, p) == Parsed(JString(s), Back(t, p + |Quoted(s)| + |after|))
  {
    QuotedRead(t, p, s);
    SkipBlank(t, p + |Quoted(s)|, after);
  }

  lemma {:induction false} NumberCore(t: string, p: nat, s: string, after: string)
    requires Here(t, p, s) && Digits(s) && Here(t, p + |s|, after) && Blank(after) && Stop(t, p + |s| + |after|)
    ensures p < |t| && ParseValue(t, p) == Parsed(JNumber(s), Back(t, p + |s| + |after|))
  {
    hide NumberFrom; hide Skip; hide ParseElements; hide ParseProperties; hide Here;
    HereAt(t, p, s, 0);
    HereAt(t, p, s, |s| - 1);
    if after != "" {
      HereAt(t, p + |s|, after, 0);
    }
    HereIn(t, p, s);
    NumberRead(t, p, s, "");
    assert "" + s == s;
    SkipBack(t, p + |s|, after);
  }

  lemma {:induction false} HereIn(t: string, p: nat, s: string)
    requires Here(t, p, s)
    ensures p + |s| <= |t|
  {
  }

  lemma {:induction false} WordCore(t: string, p: nat, word: string, v: Value, after: string)
    requires (word == "true" && v == JTrue) || (word == "false" && v == JFalse) || (word == "null" && v == JNull)
    requires Here(t, p, word) && Here(t, p + |word|, after) && Blank(after) && Stop(t, p + |word| + |after|)
    ensures p < |t| && ParseValue(t, p) == Parsed(v, Back(t, p + |word| + |after|))
  {
    hide Skip; hide ParseElements; hide ParseProperties; hide Here; hide KeywordFrom;
    HereIn(t, p, word);
    HereAt(t, p, word, 0);
    HereAt(t, p, word, |word| - 1);
    assert word == word[..1] + word[1..];
    HereSplit(t, p, word[..1], word[1..]);
    WordRead(t, word, v, 1, p + 1);
    assert ParseKeyword(t, p) == KeywordFrom(t, word, v, 1, p + 1);
    SkipBack(t, p + |word|, after);
  }

  /** A value is read back, whatever white space follows. */
  lemma {:induction false} CoreRead(t: string, p: nat, c: Core, after: string)
    requires GoodCore(c) && Here(t, p, CoreText(c)) && Here(t, p + |CoreText(c)|, after) && Blank(after)
    requires Stop(t, p + |CoreText(c)| + |after|)
    ensures p < |t| && ParseValue(t, p) == Parsed(Tree(c), Back(t, p + |CoreText(c)| + |after|))
    decreases c, 2
  {
    hide Here; hide Skip; hide ParseValue; hide Stop; hide Blank; hide DocsText; hide MembersText;
    hide GoodDocs; hide GoodMembers; hide Trees; hide Properties;
    match c {
      case CString(s) => StringCore(t, p, s, after);
      case CNumber(s) => NumberCore(t, p, s, after);
      case CTrue => WordCore(t, p, "true", JTrue, after);
      case CFalse => WordCore(t, p, "false", JFalse, after);
      case CNull => WordCore(t, p, "null", JNull, after);
      case CArray(items) => ArrayCore(t, p, items, after);
      case CObject(ms) => ObjectCore(t, p, ms, after);
    }
  }

  lemma {:induction false} ArrayCore(t: string, p: nat, items: seq<Doc>, after: string)
    requires items != [] && GoodDocs(items) && Here(t, p, "[" + DocsText(items))
    requires Here(t, p + 1 + |DocsText(items)|, after) && Blank(after) && Stop(t, p + 1 + |DocsText(items)| + |after|)
    ensures p < |t| && ParseValue(t, p) == Parsed(JArray(Trees(items)), Back(t, p + 1 + |DocsText(items)| + |after|))
    decreases items, 1
  {
    hide Here; hide Skip; hide ParseScalar; hide ParseElements; hide ParseProperties; hide Stop; hide Blank; hide DocsText;
    hide Solid; hide GoodDocs; hide Trees;
    HereSplit(t, p, "[", DocsText(items));
    HereAt(t, p, "[", 0);
    HereIn(t, p, "[");
    DocsRead(t, p, p + 1, items, []);
    assert [] + Trees(items) == Trees(items);
    StopSolid(t, p + 1 + |DocsText(items)| + |after|);
    SkipBlank(t, p + 1 + |DocsText(items)|, after);
  }

  lemma {:induction false} ObjectCore(t: string, p: nat, ms: seq<Member>, after: string)
    requires ms != [] && GoodMembers(ms) && Here(t, p, "{" + MembersText(ms))
    requires Here(t, p + 1 + |MembersText(ms)|, after) && Blank(after) && Stop(t, p + 1 + |MembersText(ms)| + |after|)
    ensures p < |t| && ParseValue(t, p) == Parsed(JObject(Properties(ms)), Back(t, p + 1 + |MembersText(ms)| + |after|))
    decreases ms, 1
  {
    hide Here; hide Skip; hide ParseScalar; hide ParseElements; hide ParseProperties; hide Stop; hide Blank; hide MembersText;
    hide Solid; hide GoodMembers; hide Properties;
    HereSplit(t, p, "{", MembersText(ms));
    HereAt(t, p, "{", 0);
    HereIn(t, p, "{");
    MembersRead(t, p, p + 1, ms, []);
    assert [] + Properties(ms) == Properties(ms);
    StopSolid(t, p + 1 + |MembersText(ms)| + |after|);
    SkipBlank(t, p + 1 + |MembersText(ms)|, after);
  }

  lemma {:induction false} StopSolid(t: string, q: nat)
    requires Stop(t, q)
    ensures Solid(t, q)
  {
  }

  lemma {:induction false} DocRead(t: string, p: nat, d: Doc)
    requires GoodDoc(d) && Here(t, p, DocText(d)) && Stop(t, p + |DocText(d)|)
    ensures t != [] && Skip(t, p) == p + |d.before|
    ensures ParseValue(t, Skip(t, p)) == Parsed(Tree(d.core), Back(t, p + |DocText(d)|))
    decreases d, 3
  {
    hide Here; hide Skip; hide ParseValue; hide Stop; hide Blank; hide CoreText; hide GoodCore; hide Tree;
    var core := CoreText(d.core);
    assert DocText(d) == d.before + (core + d.after);
    HereSplit(t, p, d.before, core + d.after);
    HereSplit(t, p + |d.before|, core, d.after);
    CoreStarts(d.core);
    HereAt(t, p + |d.before|, core, 0);
    HereIn(t, p + |d.before|, core);
    SkipBlank(t, p, d.before);
    CoreRead(t, p + |d.before|, d.core, d.after);
  }

  /** Where the first element of a list ends and the others start. */
  lemma {:induction false} DocsPlace(t: string, q: nat, ds: seq<Doc>)
    requires ds != [] && Here(t, q, DocsText(ds))
    ensures var q1 := q + |DocText(ds[0])|;
      && Here(t, q, DocText(ds[0])) && q1 < |t| && Stop(t, q1) && t[q1] == (if |ds| == 1 then ']' else ',')
      && Here(t, q1 + 1, DocsText(ds[1..])) && q + |DocsText(ds)| == q1 + 1 + |DocsText(ds[1..])|
      && (|ds| == 1 ==> DocsText(ds[1..]) == "")
  {
    hide Here; hide DocText;
    var text, sep, more := DocText(ds[0]), if |ds| == 1 then "]" else ",", DocsText(ds[1..]);
    assert DocsText(ds) == text + (sep + more);
    HereSplit(t, q, text, sep + more);
    HereSplit(t, q + |text|, sep, more);
    HereAt(t, q + |text|, sep, 0);
    HereIn(t, q + |text|, sep);
  }

  lemma {:induction false} DocsRead(t: string, p: nat, q: nat, ds: seq<Doc>, items: seq<Value>)
    requires p < q && ds != [] && GoodDocs(ds) && Here(t, q, DocsText(ds))
    ensures q + |DocsText(ds)| <= |t|
    ensures ParseElements(t, p, q, items) == Parsed(JArray(items + Trees(ds)), Skip(t, q + |DocsText(ds)|))
    decreases ds, 0
  {
    hide Here; hide Skip; hide ParseValue; hide Stop; hide GoodDoc; hide Tree; hide DocText; hide DocsText;
    var d, more := ds[0], ds[1..];
    DocsPlace(t, q, ds);
    HereIn(t, q, DocsText(ds));
    DocRead(t, q, d);
    if |ds| > 1 {
      DocsRead(t, p, q + |DocText(d)| + 1, more, items + [Tree(d.core)]);
      assert items + [Tree(d.core)] + Trees(more) == items + Trees(ds);
    } else {
      assert Trees(ds) == [Tree(d.core)];
    }
  }

  lemma {:induction false} SolidAt(t: string, q: nat)
    requires q < |t| && !IsSpace(t[q])
    ensures Solid(t, q) && Back(t, q) == q
  {
  }

  /** The key of a property and the colon. */
  lemma {:induction false} KeyRead(t: string, q: nat, before: string, key: string, mid: string)
    requires Here(t, q, before + (Quoted(key) + (mid + ":"))) && Blank(before) && Quotable(key) && Blank(mid)
    ensures var k, c := q + |before|, q + |before| + |Quoted(key)| + |mid|;
      && c < |t| && t[c] == ':' && Skip(t, q) == k
      && ParseString(t, k) == Parsed(key, k + |Quoted(key)|) && Skip(t, k + |Quoted(key)|) == c
  {
    hide Here; hide Skip; hide Quoted; hide ParseString; hide Blank; hide Quotable; hide Solid; hide Back;
    HereSplit(t, q, before, Quoted(key) + (mid + ":"));
    var k := q + |before|;
    HereSplit(t, k, Quoted(key), mid + ":");
    var d := k + |Quoted(key)|;
    HereSplit(t, d, mid, ":");
    var c := d + |mid|;
    HereAt(t, c, ":", 0);
    HereIn(t, c, ":");
    QuotedRead(t, k, key);
    SolidAt(t, k);
    SolidAt(t, c);
    SkipBlank(t, q, before);
    SkipBlank(t, d, mid);
  }

  lemma {:induction false} MemberRead(t: string, p: nat, q: nat, m: Member)
    requires p < q && p < |t| && t[p] == '{' && Here(t, q, MemberText(m)) && q + |MemberText(m)| < |t|
    requires Stop(t, q + |MemberText(m)|)
    requires Blank(m.before) && Quotable(m.key) && Blank(m.mid) && GoodDoc(m.value)
    ensures ParseProperty(t, p, q) == Parsed(Property(m.key, Tree(m.value.core)), q + |MemberText(m)|)
    decreases m, 0
  {
    hide Here; hide Skip; hide ParseValue; hide Stop; hide GoodDoc; hide Tree; hide DocText; hide Quoted; hide ParseString;
    hide Blank; hide Quotable;
    var head := m.before + (Quoted(m.key) + (m.mid + ":"));
    assert MemberText(m) == head + DocText(m.value);
    HereSplit(t, q, head, DocText(m.value));
    KeyRead(t, q, m.before, m.key, m.mid);
    DocRead(t, q + |head|, m.value);
  }

  lemma {:induction false} MembersPlace(t: string, q: nat, ms: seq<Member>)
    requires ms != [] && Here(t, q, MembersText(ms))
    ensures var q1 := q + |MemberText(ms[0])|;
      && Here(t, q, MemberText(ms[0])) && q1 < |t| && Stop(t, q1) && t[q1] == (if |ms| == 1 then '}' else ',')
      && Here(t, q1 + 1, MembersText(ms[1..])) && q + |MembersText(ms)| == q1 + 1 + |MembersText(ms[1..])|
      && (|ms| == 1 ==> MembersText(ms[1..]) == "")
  {
    hide Here; hide MemberText;
    var text, sep, more := MemberText(ms[0]), if |ms| == 1 then "}" else ",", MembersText(ms[1..]);
    assert MembersText(ms) == text + (sep + more);
    HereSplit(t, q, text, sep + more);
    HereSplit(t, q + |text|, sep, more);
    HereAt(t, q + |text|, sep, 0);
    HereIn(t, q + |text|, sep);
  }

  lemma {:induction false} MembersRead(t: string, p: nat, q: nat, ms: seq<Member>, props: seq<Property>)
    requires p < q && p < |t| && t[p] == '{' && ms != [] && GoodMembers(ms) && Here(t, q, MembersText(ms))
    ensures q + |MembersText(ms)| <= |t|
    ensures ParseProperties(t, p, q, props) == Parsed(JObject(props + Properties(ms)), Skip(t, q + |MembersText(ms)|))
    decreases ms, 0
  {
    hide Here; hide Skip; hide ParseProperty; hide Stop; hide GoodDoc; hide Tree; hide MemberText; hide MembersText;
    hide Blank; hide Quotable;
    var m, more := ms[0], ms[1..];
    MembersPlace(t, q, ms);
    HereIn(t, q, MembersText(ms));
    MemberRead(t, p, q, m);
    var v := Property(m.key, Tree(m.value.core));
    if |ms| > 1 {
      MembersRead(t, p, q + |MemberText(m)| + 1, more, props + [v]);
      assert props + [v] + Properties(more) == props + Properties(ms);
    } else {
      assert Properties(ms) == [v];
    }
  }

  /** Parsing what was printed gives the tree. */
  lemma {:induction false} RoundTrip(d: Doc)
    requires GoodDoc(d)
    ensures DocText(d) != [] && Parse(DocText(d)) == Parsed(Tree(d.core), |DocText(d)| - 1)
  {
    var t := DocText(d);
    CoreStarts(d.core);
    assert t[0..|t|] == t;
    DocRead(t, 0, d);
  }

  lemma {:induction false} DocsTextLast(ds: seq<Doc>)
    requires ds != []
    ensures DocsText(ds) != [] && DocsText(ds)[|DocsText(ds)| - 1] == ']'
  {
    if |ds| > 1 {
      DocsTextLast(ds[1..]);
    }
  }

  lemma {:induction false} MembersTextLast(ms: seq<Member>)
    requires ms != []
    ensures MembersText(ms) != [] && MembersText(ms)[|MembersText(ms)| - 1] == '}'
  {
    if |ms| > 1 {
      MembersTextLast(ms[1..]);
    }
  }

  /** What is printed never ends in an opening bracket, so the running parser takes it. */
  lemma {:induction false} PrintedEnds(d: Doc)
    requires GoodDoc(d)
    ensures DocText(d) != [] && DocText(d)[|DocText(d)| - 1] != '['
  {
    hide DocsText; hide MembersText; hide GoodDocs; hide GoodMembers;
    match d.core {
      case CArray(items) => DocsTextLast(items);
      case CObject(ms) => MembersTextLast(ms);
      case _ =>
    }
  }

  // ----- Every tree can be printed -----

  /** The trees of the accepted subset. */
  predicate Printable(v: Value) {
    match v
    case JString(s) => Quotable(s)
    case JNumber(s) => Digits(s)
    case JArray(vs) => vs != [] && AllPrintable(vs)
    case JObject(ps) => ps != [] && PropsPrintable(ps)
    case _ => true
  }

  predicate AllPrintable(vs: seq<Value>) {
    vs == [] || (Printable(vs[0]) && AllPrintable(vs[1..]))
  }

  predicate PropsPrintable(ps: seq<Property>) {
    ps == [] || (Quotable(ps[0].key) && Printable(ps[0].value) && PropsPrintable(ps[1..]))
  }

  /** The print without any white space. */
  function Plain(v: Value): Core {
    match v
    case JString(s) => CString(s)
    case JNumber(s) => CNumber(s)
    case JTrue => CTrue
    case JFalse => CFalse
    case JNull => CNull
    case JArray(vs) => CArray(PlainItems(vs))
    case JObject(ps) => CObject(PlainProps(ps))
  }

  function PlainItems(vs: seq<Value>): (ds: seq<Doc>)
    ensures |ds| == |vs|
  {
    if vs == [] then [] else [Doc("", Plain(vs[0]), "")] + PlainItems(vs[1..])
  }

  function PlainProps(ps: seq<Property>): (ms: seq<Member>)
    ensures |ms| == |ps|
  {
    if ps == [] then [] else [Member("", ps[0].key, "", Doc("", Plain(ps[0].value), ""))] + PlainProps(ps[1..])
  }

  lemma {:induction false} PlainIs(v: Value)
    requires Printable(v)
    ensures GoodCore(Plain(v)) && Tree(Plain(v)) == v
  {
    match v {
      case JArray(vs) => PlainItemsAre(vs);
      case JObject(ps) => PlainPropsAre(ps);
      case _ =>
    }
  }

  lemma {:induction false} PlainItemsAre(vs: seq<Value>)
    requires AllPrintable(vs)
    ensures GoodDocs(PlainItems(vs)) && Trees(PlainItems(vs)) == vs
  {
    if vs != [] {
      PlainIs(vs[0]);
      PlainItemsAre(vs[1..]);
      assert PlainItems(vs)[1..] == PlainItems(vs[1..]);
    }
  }

  lemma {:induction false} PlainPropsAre(ps: seq<Property>)
    requires PropsPrintable(ps)
    ensures GoodMembers(PlainProps(ps)) && Properties(PlainProps(ps)) == ps
  {
    if ps != [] {
      PlainIs(ps[0].value);
      PlainPropsAre(ps[1..]);
      assert PlainProps(ps)[1..] == PlainProps(ps[1..]);
    }
  }

  /** So every tree of the subset has a text that parses to it, with any white space around it. */
  lemma {:induction false} EveryTree(v: Value, before: string, after: string)
    requires Printable(v) && Blank(before) && Blank(after)
    ensures var t := DocText(Doc(before, Plain(v), after)); t != [] && Parse(t) == Parsed(v, |t| - 1)
  {
    PlainIs(v);
    RoundTrip(Doc(before, Plain(v), after));
  }
}
