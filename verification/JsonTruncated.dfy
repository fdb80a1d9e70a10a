/** A printed text cut short: exactly the cuts behind an opening bracket make the parser run on. */
module JsonTruncated {
  import opened JsonParser
  import opened JsonRoundTrip

  // ----- The cuts -----

  /** The first k characters of the print end in the bracket that opens an array. */
  ghost predicate DocOpens(d: Doc, k: nat) {
    |d.before| < k <= |d.before| + |CoreText(d.core)| && CoreOpens(d.core, k - |d.before|)
  }

  ghost predicate CoreOpens(c: Core, k: nat) {
    match c
    case CArray(items) => k == 1 || (k > 1 && DocsOpens(items, k - 1))
    case CObject(ms) => k > 1 && MembersOpens(ms, k - 1)
    case _ => false
  }

  ghost predicate DocsOpens(ds: seq<Doc>, k: nat) {
    ds != [] &&
    var n := |DocText(ds[0])|;
    if k <= n then DocOpens(ds[0], k) else k > n + 1 && DocsOpens(ds[1..], k - n - 1)
  }

  /** What stands before the value of a property. */
  function Head(m: Member): string {
    m.before + (Quoted(m.key) + (m.mid + ":"))
  }

  ghost predicate MembersOpens(ms: seq<Member>, k: nat) {
    ms != [] &&
    var n, h := |MemberText(ms[0])|, |Head(ms[0])|;
    if k <= n then k > h && DocOpens(ms[0].value, k - h) else k > n + 1 && MembersOpens(ms[1..], k - n - 1)
  }

  // ----- Texts cut short -----

  /** The text ends, with an opening bracket, inside what s would have it be from p on. */
  ghost predicate Cut(t: string, p: nat, s: string) {
    p < |t| <= p + |s| && t[p..] == s[..|t| - p] && t[|t| - 1] == '['
  }

  lemma {:induction false} CutAt(t: string, p: nat, s: string, i: nat)
    requires Cut(t, p, s) && p + i < |t|
    ensures t[p + i] == s[i]
  {
    assert t[p..][i] == s[..|t| - p][i];
  }

  /** A cut is in the first part or in the second. */
  lemma {:induction false} CutSplit(t: string, p: nat, x: string, y: string)
    requires Cut(t, p, x + y)
    ensures if |t| <= p + |x| then Cut(t, p, x) else Here(t, p, x) && Cut(t, p + |x|, y)
  {
    if |t| <= p + |x| {
      assert (x + y)[..|t| - p] == x[..|t| - p];
    } else {
      assert t[p..p + |x|] == t[p..][..|x|] == (x + y)[..|t| - p][..|x|] == x;
      assert t[p + |x|..] == t[p..][|x|..] == (x + y)[..|t| - p][|x|..] == y[..|t| - p - |x|];
    }
  }

  /** A cut ends in a bracket, so the part it ends in has one. */
  lemma {:induction false} CutLast(t: string, p: nat, s: string)
    requires Cut(t, p, s)
    ensures s[|t| - p - 1] == '['
  {
    CutAt(t, p, s, |t| - p - 1);
  }

  lemma {:induction false} NoCutInBlank(t: string, p: nat, s: string)
    requires Blank(s)
    ensures !Cut(t, p, s)
  {
    if Cut(t, p, s) {
      CutLast(t, p, s);
    }
  }

  /** A string that does not end is refused. */
  lemma {:induction false} StringCut(t: string, p: nat, text: string)
    requires p <= |t| && |text| + (|t| - p) <= 127
    requires forall i :: p <= i < |t| ==> t[i] != '"' && t[i] != '\0'
    ensures StringFrom(t, p, text) == Failed
    decreases |t| - p
  {
    if p < |t| {
      StringCut(t, p + 1, text + [t[p]]);
    }
  }

  lemma {:induction false} QuotedCut(t: string, p: nat, s: string)
    requires Cut(t, p, Quoted(s)) && Quotable(s)
    ensures t[p] == '"' && ParseString(t, p) == Failed
  {
    hide StringFrom;
    CutAt(t, p, Quoted(s), 0);
    CutLast(t, p, Quoted(s));
    forall i | p + 1 <= i < |t| ensures t[i] != '"' && t[i] != '\0' {
      CutAt(t, p, Quoted(s), i - p);
      assert Quoted(s)[i - p] == s[i - p - 1];
    }
    StringCut(t, p + 1, "");
  }

  // ----- Reading a text cut short -----

  ghost function Stuck<T>(opens: bool): Outcome<T> {
    if opens then Endless else Failed
  }

  lemma {:induction false} ScalarCut(t: string, p: nat, c: Core)
    requires GoodCore(c) && !c.CArray? && !c.CObject? && Cut(t, p, CoreText(c))
    ensures ParseValue(t, p) == Failed
  {
    hide StringFrom; hide NumberFrom; hide ParseKeyword; hide ParseElements; hide ParseProperties;
    CutLast(t, p, CoreText(c));
    assert c.CString?;
    QuotedCut(t, p, c.text);
  }

  lemma {:induction false} CoreCut(t: string, p: nat, c: Core)
    requires GoodCore(c) && Cut(t, p, CoreText(c))
    ensures ParseValue(t, p) == Stuck(CoreOpens(c, |t| - p))
    decreases c, 2
  {
    hide Cut; hide ParseScalar; hide ParseElements; hide ParseProperties; hide GoodDocs; hide GoodMembers;
    hide DocsOpens; hide MembersOpens; hide DocsText; hide MembersText;
    match c {
      case CArray(items) =>
        CutSplit(t, p, "[", DocsText(items));
        CutInside(t, p, CoreText(c));
        CutAt(t, p, CoreText(c), 0);
        if |t| == p + 1 {
          BracketLoops(t, p);
        } else {
          DocsCut(t, p, p + 1, items, []);
        }
      case CObject(ms) =>
        CutSplit(t, p, "{", MembersText(ms));
        CutInside(t, p, CoreText(c));
        CutAt(t, p, CoreText(c), 0);
        CutLast(t, p, CoreText(c));
        MembersCut(t, p, p + 1, ms, []);
      case _ => ScalarCut(t, p, c);
    }
  }

  lemma {:induction false} CutInside(t: string, p: nat, s: string)
    requires Cut(t, p, s)
    ensures p < |t| <= p + |s| && t[|t| - 1] == '['
  {
  }

  lemma {:induction false} DocCut(t: string, q: nat, d: Doc)
    requires GoodDoc(d) && Cut(t, q, DocText(d))
    ensures t != [] && ParseValue(t, Skip(t, q)) == Stuck(DocOpens(d, |t| - q))
    decreases d, 3
  {
    hide Cut; hide Skip; hide ParseValue; hide Blank; hide CoreText; hide GoodCore; hide CoreOpens; hide Here;
    var core := CoreText(d.core);
    assert DocText(d) == d.before + (core + d.after);
    CutInside(t, q, DocText(d));
    CutSplit(t, q, d.before, core + d.after);
    NoCutInBlank(t, q, d.before);
    var e := q + |d.before|;
    CutSplit(t, e, core, d.after);
    NoCutInBlank(t, e + |core|, d.after);
    CutInside(t, e, core);
    CoreStarts(d.core);
    CutAt(t, e, core, 0);
    SolidAt(t, e);
    SkipBlank(t, q, d.before);
    CoreCut(t, e, d.core);
  }

  lemma {:induction false} DocsCut(t: string, p: nat, q: nat, ds: seq<Doc>, items: seq<Value>)
    requires p < q && ds != [] && GoodDocs(ds) && Cut(t, q, DocsText(ds))
    ensures q < |t| && ParseElements(t, p, q, items) == Stuck(DocsOpens(ds, |t| - q))
    decreases ds, 0
  {
    hide Cut; hide Here; hide Skip; hide ParseValue; hide Stop; hide GoodDoc; hide Tree; hide DocText; hide DocOpens;
    hide DocsText;
    var d := ds[0];
    var q1 := q + |DocText(d)|;
    CutInside(t, q, DocsText(ds));
    SkipForward(t, q);
    DocsCutPlace(t, q, ds);
    if |t| <= q1 {
      DocCut(t, q, d);
    } else {
      DocRead(t, q, d);
      DocsCut(t, p, q1 + 1, ds[1..], items + [Tree(d.core)]);
    }
  }

  lemma {:induction false} DocsCutPlace(t: string, q: nat, ds: seq<Doc>)
    requires ds != [] && Cut(t, q, DocsText(ds))
    ensures var d, q1 := ds[0], q + |DocText(ds[0])|;
      if |t| <= q1 then Cut(t, q, DocText(d))
      else
        && |ds| > 1 && Here(t, q, DocText(d)) && q1 + 1 < |t| && t[q1] == ',' && Stop(t, q1)
        && Cut(t, q1 + 1, DocsText(ds[1..]))
  {
    hide Cut; hide Here; hide DocText;
    var text, sep, more := DocText(ds[0]), if |ds| == 1 then "]" else ",", DocsText(ds[1..]);
    assert DocsText(ds) == text + (sep + more);
    CutSplit(t, q, text, sep + more);
    if |t| > q + |text| {
      SeparatorCut(t, q + |text|, sep, more);
    }
  }

  lemma {:induction false} NotSeparator(t: string, q: nat, sep: string)
    requires |sep| == 1 && sep[0] != '['
    ensures !Cut(t, q, sep)
  {
    if Cut(t, q, sep) {
      CutLast(t, q, sep);
    }
  }

  lemma {:induction false} SkipForward(t: string, q: nat)
    requires q < |t|
    ensures q <= Skip(t, q) < |t|
  {
  }

  lemma {:induction false} MemberCut(t: string, p: nat, q: nat, m: Member)
    requires p < q && p < |t| && t[p] == '{' && Cut(t, q, MemberText(m))
    requires Blank(m.before) && Quotable(m.key) && Blank(m.mid) && GoodDoc(m.value)
    ensures q < |t| && ParseProperty(t, p, q)
         == Stuck(|t| - q > |Head(m)| && DocOpens(m.value, |t| - q - |Head(m)|))
    decreases m, 0
  {
    hide Cut; hide Here; hide Skip; hide ParseValue; hide GoodDoc; hide DocText; hide Quoted; hide ParseString;
    hide Blank; hide Quotable; hide DocOpens;
    assert MemberText(m) == Head(m) + DocText(m.value);
    CutInside(t, q, MemberText(m));
    CutSplit(t, q, Head(m), DocText(m.value));
    if |t| <= q + |Head(m)| {
      KeyCut(t, q, m.before, m.key, m.mid);
    } else {
      KeyRead(t, q, m.before, m.key, m.mid);
      DocCut(t, q + |Head(m)|, m.value);
    }
  }

  lemma {:induction false} KeyCut(t: string, q: nat, before: string, key: string, mid: string)
    requires Cut(t, q, before + (Quoted(key) + (mid + ":"))) && Blank(before) && Quotable(key) && Blank(mid)
    ensures t != [] && q < |t| && ParseString(t, Skip(t, q)) == Failed
  {
    hide Cut; hide Here; hide Skip; hide Quoted; hide ParseString; hide Blank; hide Quotable;
    var rest := mid + ":";
    CutInside(t, q, before + (Quoted(key) + rest));
    CutSplit(t, q, before, Quoted(key) + rest);
    NoCutInBlank(t, q, before);
    var k := q + |before|;
    CutSplit(t, k, Quoted(key), rest);
    NoCutInColon(t, k + |Quoted(key)|, mid);
    QuotedCut(t, k, key);
    CutInside(t, k, Quoted(key));
    SolidAt(t, k);
    SkipBlank(t, q, before);
  }

  lemma {:induction false} NoCutInColon(t: string, p: nat, mid: string)
    requires Blank(mid)
    ensures !Cut(t, p, mid + ":")
  {
    if Cut(t, p, mid + ":") {
      CutSplit(t, p, mid, ":");
      NoCutInBlank(t, p, mid);
      NotSeparator(t, p + |mid|, ":");
    }
  }

  lemma {:induction false} MembersCut(t: string, p: nat, q: nat, ms: seq<Member>, props: seq<Property>)
    requires p < q && p < |t| && t[p] == '{' && ms != [] && GoodMembers(ms) && Cut(t, q, MembersText(ms))
    ensures q < |t| && ParseProperties(t, p, q, props) == Stuck(MembersOpens(ms, |t| - q))
    decreases ms, 0
  {
    hide Cut; hide Here; hide Skip; hide ParseProperty; hide Stop; hide GoodDoc; hide Tree; hide MemberText; hide DocOpens;
    hide Blank; hide Quotable; hide Head; hide MembersText;
    var m := ms[0];
    var q1 := q + |MemberText(m)|;
    CutInside(t, q, MembersText(ms));
    MembersCutPlace(t, q, ms);
    if |t| <= q1 {
      MemberCut(t, p, q, m);
    } else {
      MemberRead(t, p, q, m);
      MembersCut(t, p, q1 + 1, ms[1..], props + [Property(m.key, Tree(m.value.core))]);
    }
  }

  lemma {:induction false} MembersCutPlace(t: string, q: nat, ms: seq<Member>)
    requires ms != [] && Cut(t, q, MembersText(ms))
    ensures var m, q1 := ms[0], q + |MemberText(ms[0])|;
      if |t| <= q1 then Cut(t, q, MemberText(m))
      else
        && |ms| > 1 && Here(t, q, MemberText(m)) && q1 + 1 < |t| && t[q1] == ',' && Stop(t, q1)
        && Cut(t, q1 + 1, MembersText(ms[1..]))
  {
    hide Cut; hide Here; hide MemberText;
    var text, sep, more := MemberText(ms[0]), if |ms| == 1 then "}" else ",", MembersText(ms[1..]);
    assert MembersText(ms) == text + (sep + more);
    CutSplit(t, q, text, sep + more);
    if |t| > q + |text| {
      SeparatorCut(t, q + |text|, sep, more);
    }
  }

  lemma {:induction false} SeparatorCut(t: string, q: nat, sep: string, more: string)
    requires Cut(t, q, sep + more) && |sep| == 1 && (sep[0] == ',' || sep[0] == ']' || sep[0] == '}')
    ensures q + 1 < |t| && t[q] == sep[0] && Stop(t, q) && Cut(t, q + 1, more) && more != []
  {
    hide Cut; hide Here;
    CutSplit(t, q, sep, more);
    CutInside(t, q, sep + more);
    NotSeparator(t, q, sep);
    HereAt(t, q, sep, 0);
    CutInside(t, q + 1, more);
  }

  // ----- The cuts end in brackets -----

  lemma {:induction false} DocOpensAt(d: Doc, k: nat)
    requires DocOpens(d, k)
    ensures 0 < k <= |DocText(d)| && DocText(d)[k - 1] == '['
    decreases d, 3
  {
    hide CoreOpens; hide CoreText;
    CoreOpensAt(d.core, k - |d.before|);
  }

  lemma {:induction false} CoreOpensAt(c: Core, k: nat)
    requires CoreOpens(c, k)
    ensures 0 < k <= |CoreText(c)| && CoreText(c)[k - 1] == '['
    decreases c, 2
  {
    hide DocsOpens; hide MembersOpens; hide DocsText; hide MembersText;
    match c {
      case CArray(items) =>
        if k > 1 {
          DocsOpensAt(items, k - 1);
        }
      case CObject(ms) => MembersOpensAt(ms, k - 1);
    }
  }

  lemma {:induction false} DocsOpensAt(ds: seq<Doc>, k: nat)
    requires DocsOpens(ds, k)
    ensures 0 < k <= |DocsText(ds)| && DocsText(ds)[k - 1] == '['
    decreases ds, 0
  {
    hide DocOpens; hide DocText;
    if k <= |DocText(ds[0])| {
      DocOpensAt(ds[0], k);
    } else {
      DocsOpensAt(ds[1..], k - |DocText(ds[0])| - 1);
    }
  }

  lemma {:induction false} MembersOpensAt(ms: seq<Member>, k: nat)
    requires MembersOpens(ms, k)
    ensures 0 < k <= |MembersText(ms)| && MembersText(ms)[k - 1] == '['
    decreases ms, 0
  {
    hide DocOpens; hide DocText; hide Head; hide MemberText;
    var m := ms[0];
    MemberSplit(m);
    if k <= |MemberText(m)| {
      DocOpensAt(m.value, k - |Head(m)|);
    } else {
      MembersOpensAt(ms[1..], k - |MemberText(m)| - 1);
    }
  }

  lemma {:induction false} MemberSplit(m: Member)
    ensures MemberText(m) == Head(m) + DocText(m.value)
  {
    hide DocText; hide Quoted;
  }

  /** A printed text cut short after k characters, a file that was not written out, say, makes
      the parser run on for ever if and only if the cut is behind the bracket of an array. */
  lemma {:induction false} TruncatedExact(d: Doc, k: nat)
    requires GoodDoc(d) && 0 < k <= |DocText(d)|
    ensures Parse(DocText(d)[..k]) == Endless <==> DocOpens(d, k)
  {
    hide DocText; hide ParseValue; hide DocOpens; hide Skip;
    var t := DocText(d)[..k];
    if t[k - 1] == '[' {
      assert t[0..] == t;
      DocCut(t, 0, d);
    } else {
      AlwaysEnds(t);
      if DocOpens(d, k) {
        DocOpensAt(d, k);
      }
    }
  }
}
