/**
  The restricted JSON-path queries the recipes build and match against a location:

    `$`                      the document root, followed by any number of
    `.name`                  a descent into the entry with key `name`,
    `[*]`                    a descent into any child,
    `[?(@.field == 'lit')]`  a descent into a child that is a mapping whose `field` entry is the
                             scalar `lit` (`$.resources[?(@.type == 'git')]`).

  A `JsonPathMatcher` holds the path text, as the Java object does; `MatchesAt` compiles it with
  `Parse`, and a path that does not parse matches nothing.
 */
module JsonPath {
  import opened Wrappers
  import opened Strings
  import opened Yaml

  datatype Segment = Field(name: string) | Wildcard | Filter(field: string, literal: string)

  type Query = seq<Segment>

  datatype JsonPathMatcher = JsonPathMatcher(path: string)

  // ---------------------------------------------------------------- meaning

  predicate SegmentMatches(s: Segment, l: Link) {
    match s
    case Field(name) => l.step == Key(name)
    case Wildcard => true
    case Filter(f, lit) => l.node.Mapping? && Lookup(l.node.entries, f) == Some(Scalar(lit))
  }

  /** Matching is anchored at the root: one segment per link, from the root downward. */
  predicate Matches(q: Query, loc: Location) {
    |q| == |loc| && forall i :: 0 <= i < |q| ==> SegmentMatches(q[i], loc[i])
  }

  function Compile(m: JsonPathMatcher): Option<Query> {
    Parse(m.path)
  }

  predicate MatchesAt(m: JsonPathMatcher, loc: Location) {
    Compile(m).Some? && Matches(Compile(m).value, loc)
  }

  // ---------------------------------------------------------------- syntax

  predicate NameChar(c: char) {
    c != '.' && c != '[' && c != ']' && c != ' ' && c != '\''
  }

  predicate LiteralChar(c: char) {
    c != '\''
  }

  predicate IsName(s: string) {
    s != [] && forall i :: 0 <= i < |s| ==> NameChar(s[i])
  }

  predicate IsLiteral(s: string) {
    forall i :: 0 <= i < |s| ==> LiteralChar(s[i])
  }

  predicate WellFormedSegment(s: Segment) {
    match s
    case Field(name) => IsName(name)
    case Wildcard => true
    case Filter(f, lit) => IsName(f) && IsLiteral(lit)
  }

  predicate WellFormed(q: Query) {
    forall i :: 0 <= i < |q| ==> WellFormedSegment(q[i])
  }

  function RenderSegment(s: Segment): string {
    match s
    case Field(name) => "." + name
    case Wildcard => "[*]"
    case Filter(f, lit) => "[?(@." + f + " == '" + lit + "')]"
  }

  function RenderSegments(q: Query): string {
    if q == [] then "" else RenderSegment(q[0]) + RenderSegments(q[1..])
  }

  lemma RenderSegmentsCons(s: Segment, q: Query)
    ensures RenderSegments([s] + q) == RenderSegment(s) + RenderSegments(q)
  {
    assert ([s] + q)[1..] == q;
  }

  function Render(q: Query): string {
    "$" + RenderSegments(q)
  }

  /** Rendering distributes over concatenation of queries. */
  lemma {:induction false} RenderAppend(q1: Query, q2: Query)
    ensures RenderSegments(q1 + q2) == RenderSegments(q1) + RenderSegments(q2)
  {
    if q1 == [] {
      assert q1 + q2 == q2;
      assert RenderSegments(q1) == "";
    } else {
      var q := q1 + q2;
      assert q != [] && q[0] == q1[0] && q[1..] == q1[1..] + q2;
      var a, b, c := RenderSegment(q1[0]), RenderSegments(q1[1..]), RenderSegments(q2);
      assert RenderSegments(q) == a + RenderSegments(q1[1..] + q2);
      assert RenderSegments(q1) == a + b;
      RenderAppend(q1[1..], q2);
      ConcatAssoc(a, b, c);
    }
  }

  lemma RenderSingle(s: Segment)
    ensures RenderSegments([s]) == RenderSegment(s)
  {
    assert [s][1..] == [];
    assert RenderSegments([s][1..]) == "";
  }

  function Cons(s: Segment, rest: Option<Query>): (r: Option<Query>)
    ensures r.Some? <==> rest.Some?
  {
    match rest
    case None => None
    case Some(q) => Some([s] + q)
  }

  /** `.name`, with the name running up to the next character that cannot be part of one. */
  function ParseField(s: string): Option<(Segment, nat)>
    requires s != [] && s[0] == '.'
  {
    var name := Span(s[1..], NameChar);
    if name == [] then None else Some((Field(name), 1 + |name|))
  }

  /** `[?(@.field == 'literal')]` */
  function ParseFilter(s: string): Option<(Segment, nat)>
    requires StartsWith(s, "[?(@.")
  {
    var f := Span(s[5..], NameChar);
    var u := s[5 + |f|..];
    if f == [] || !StartsWith(u, " == '") then None
    else
      var lit := Span(u[5..], LiteralChar);
      var w := u[5 + |lit|..];
      if !StartsWith(w, "')]") then None
      else Some((Filter(f, lit), 5 + |f| + 5 + |lit| + 3))
  }

  /** The first segment of `s` and the number of characters it takes. */
  function ParseOne(s: string): (r: Option<(Segment, nat)>)
    requires s != []
  {
    if s[0] == '.' then ParseField(s)
    else if StartsWith(s, "[*]") then Some((Wildcard, 3))
    else if StartsWith(s, "[?(@.") then ParseFilter(s)
    else None
  }

  lemma ParseFieldSound(s: string)
    requires s != [] && s[0] == '.' && ParseField(s).Some?
    ensures var (seg, k) := ParseField(s).value;
      0 < k <= |s| && WellFormedSegment(seg) && s[..k] == RenderSegment(seg)
  {
    var name := Span(s[1..], NameChar);
    assert s[..1 + |name|] == "." + name;
  }

  /**
    `s` begins with the filter `[?(@.f == 'lit')]`, laid out by index: the opening `[?(@.` takes
    5 characters, then `f`, then ` == '` (5), then `lit`, then `')]` (3).
   */
  predicate FilterLayout(s: string, f: string, lit: string) {
    var b := 5 + |f|;
    var d := b + 5 + |lit|;
    && d + 3 <= |s|
    && s[..5] == "[?(@." && s[5..b] == f && s[b..b + 5] == " == '" && s[b + 5..d] == lit && s[d..d + 3] == "')]"
  }

  lemma FilterLayoutRender(s: string, f: string, lit: string)
    requires FilterLayout(s, f, lit)
    ensures s[..5 + |f| + 5 + |lit| + 3] == RenderSegment(Filter(f, lit))
  {
    var b := 5 + |f|;
    var c := b + 5;
    var d := c + |lit|;
    var e := d + 3;
    SliceSplit(s, 0, d, e);
    SliceSplit(s, 0, c, d);
    SliceSplit(s, 0, b, c);
    SliceSplit(s, 0, 5, b);
  }

  lemma RenderFilterLayout(f: string, lit: string, rest: string)
    ensures var s := RenderSegment(Filter(f, lit)) + rest;
      FilterLayout(s, f, lit) && s[5 + |f| + 5 + |lit| + 3..] == rest
  {
    var p1 := "[?(@." + f;
    var p2 := p1 + " == '";
    var p3 := p2 + lit;
    var p4 := p3 + "')]";
    var s := p4 + rest;
    assert s == RenderSegment(Filter(f, lit)) + rest;
    ConcatSlices(p4, rest);
    ConcatSlices(p3, "')]");
    ConcatSlices(p2, lit);
    ConcatSlices(p1, " == '");
    ConcatSlices("[?(@.", f);
    var b := |p1|;
    var c := |p2|;
    var d := |p3|;
    var e := |p4|;
    assert s[..e] == p4;
    assert s[d..e] == p4[d..e];
    assert s[c..d] == p4[..d][c..d] == p3[c..d];
    assert s[b..c] == p4[..d][..c][b..c] == p2[b..c];
    assert s[5..b] == p4[..d][..c][..b][5..b] == p1[5..b];
    assert s[..5] == p1[..5];
  }

  lemma ParseFilterSound(s: string)
    requires StartsWith(s, "[?(@.") && ParseFilter(s).Some?
    ensures var (seg, k) := ParseFilter(s).value;
      0 < k <= |s| && WellFormedSegment(seg) && s[..k] == RenderSegment(seg)
  {
    var f := Span(s[5..], NameChar);
    var b := 5 + |f|;
    var u := s[b..];
    var lit := Span(u[5..], LiteralChar);
    var d := b + 5 + |lit|;
    SliceOfDrop(s, 5, 0, |f|);
    SliceOfDrop(s, b, 0, 5);
    SliceOfDrop(s, b, 5, 5 + |lit|);
    SliceOfDrop(u, 5, 0, |lit|);
    SliceOfDrop(s, b, 5 + |lit|, 5 + |lit| + 3);
    assert FilterLayout(s, f, lit);
    FilterLayoutRender(s, f, lit);
  }

  /** In a laid-out filter the field name is exactly the span of name characters after `[?(@.`. */
  lemma FilterNameSpan(s: string, f: string, lit: string)
    requires FilterLayout(s, f, lit) && IsName(f)
    ensures Span(s[5..], NameChar) == f
    ensures s[5 + |f|..][..5] == " == '"
  {
    var b := 5 + |f|;
    SliceSplit(s, 5, b, |s|);
    assert s[b] == s[b..b + 5][0] == ' ';
    SpanOfWord(f, s[b..], NameChar);
    SliceOfDrop(s, b, 0, 5);
  }

  /** In a laid-out filter the text after ` == '` is the literal followed by `')]` and the rest. */
  lemma FilterLiteralText(s: string, f: string, lit: string)
    requires FilterLayout(s, f, lit)
    ensures var c := 5 + |f| + 5;
      s[c..] == lit + s[c + |lit|..] && s[c + |lit|] == '\''
  {
    var c := 5 + |f| + 5;
    var d := c + |lit|;
    SliceSplit(s, c, d, |s|);
    assert s[d] == s[d..d + 3][0];
  }

  /** In a laid-out filter the literal is exactly the span of literal characters after ` == '`. */
  lemma FilterLiteralSpan(s: string, f: string, lit: string)
    requires FilterLayout(s, f, lit) && IsLiteral(lit)
    ensures var u := s[5 + |f|..];
      5 <= |u| && Span(u[5..], LiteralChar) == lit && u[5 + |lit|..][..3] == "')]"
  {
    var b := 5 + |f|;
    var d := b + 5 + |lit|;
    var u := s[b..];
    SliceOfDrop(s, b, 5, |u|);
    FilterLiteralText(s, f, lit);
    SpanOfWord(lit, s[d..], LiteralChar);
    SliceOfDrop(s, b, 5 + |lit|, |u|);
    SliceOfDrop(s, d, 0, 3);
  }

  /** A filter laid out in `s`, with a name and a literal, parses back to itself. */
  lemma ParseFilterOfLayout(s: string, f: string, lit: string)
    requires FilterLayout(s, f, lit) && IsName(f) && IsLiteral(lit)
    ensures StartsWith(s, "[?(@.")
    ensures ParseFilter(s) == Some((Filter(f, lit), 5 + |f| + 5 + |lit| + 3))
  {
    FilterNameSpan(s, f, lit);
    FilterLiteralSpan(s, f, lit);
  }

  lemma ParseOneSound(s: string)
    requires s != [] && ParseOne(s).Some?
    ensures var (seg, k) := ParseOne(s).value;
      0 < k <= |s| && WellFormedSegment(seg) && s[..k] == RenderSegment(seg)
  {
    if s[0] == '.' {
      ParseFieldSound(s);
    } else if StartsWith(s, "[*]") {
    } else {
      ParseFilterSound(s);
    }
  }

  lemma ParseOneField(name: string, rest: string)
    requires IsName(name) && (rest == [] || !NameChar(rest[0]))
    ensures ParseOne("." + name + rest) == Some((Field(name), |RenderSegment(Field(name))|))
  {
    var s := "." + name + rest;
    assert s[1..] == name + rest;
    SpanOfWord(name, rest, NameChar);
  }

  lemma ParseOneFilter(f: string, lit: string, rest: string)
    requires IsName(f) && IsLiteral(lit)
    ensures ParseOne(RenderSegment(Filter(f, lit)) + rest) == Some((Filter(f, lit), |RenderSegment(Filter(f, lit))|))
  {
    var s := RenderSegment(Filter(f, lit)) + rest;
    RenderFilterLayout(f, lit, rest);
    ParseFilterOfLayout(s, f, lit);
    assert s[0] == s[..5][0] == '[';
    assert s[1] == s[..5][1] == '?';
  }

  lemma ParseOneRender(seg: Segment, rest: string)
    requires WellFormedSegment(seg)
    requires rest == [] || (!NameChar(rest[0]) && rest[0] != ' ')
    ensures ParseOne(RenderSegment(seg) + rest) == Some((seg, |RenderSegment(seg)|))
  {
    match seg
    case Field(name) => ParseOneField(name, rest);
    case Wildcard =>
      assert (RenderSegment(seg) + rest)[..3] == "[*]";
    case Filter(f, lit) => ParseOneFilter(f, lit, rest);
  }

  function ParseSegments(s: string): Option<Query>
    decreases |s|
  {
    if s == [] then Some([])
    else match ParseOne(s)
      case None => None
      case Some((seg, k)) =>
        if 0 < k <= |s| then Cons(seg, ParseSegments(s[k..])) else None
  }

  function Parse(s: string): Option<Query> {
    if s != [] && s[0] == '$' then ParseSegments(s[1..]) else None
  }

  // ---------------------------------------------------------------- round trip

  lemma RenderSegmentsStart(q: Query)
    requires q != []
    ensures RenderSegments(q) != [] && RenderSegments(q)[0] in {'.', '['}
  {
    assert RenderSegments(q) == RenderSegment(q[0]) + RenderSegments(q[1..]);
  }

  /** What follows a rendered name or literal never continues it. */
  lemma RenderSegmentsStop(q: Query)
    ensures RenderSegments(q) == [] || (!NameChar(RenderSegments(q)[0]) && RenderSegments(q)[0] != ' ')
  {
    if q != [] {
      RenderSegmentsStart(q);
    }
  }

  /** A rendered segment in front of a text that stops names parses to that segment, then the text. */
  lemma ParseSegmentsRender(seg: Segment, rest: string)
    requires WellFormedSegment(seg)
    requires rest == [] || (!NameChar(rest[0]) && rest[0] != ' ')
    ensures ParseSegments(RenderSegment(seg) + rest) == Cons(seg, ParseSegments(rest))
  {
    var r := RenderSegment(seg);
    var s := r + rest;
    ParseOneRender(seg, rest);
    ConcatSlices(r, rest);
    assert 0 < |r| && s != [] && s[|r|..] == rest;
  }

  lemma {:induction false} ParseRenderSegments(q: Query)
    requires WellFormed(q)
    ensures ParseSegments(RenderSegments(q)) == Some(q)
  {
    if q != [] {
      var rest := RenderSegments(q[1..]);
      assert RenderSegments(q) == RenderSegment(q[0]) + rest;
      assert WellFormed(q[1..]) by {
        forall i | 0 <= i < |q[1..]| ensures WellFormedSegment(q[1..][i]) {
          assert q[1..][i] == q[i + 1];
        }
      }
      ParseRenderSegments(q[1..]);
      assert WellFormedSegment(q[0]);
      RenderSegmentsStop(q[1..]);
      ParseSegmentsRender(q[0], rest);
      assert q == [q[0]] + q[1..];
    }
  }

  /** One step of a successful parse: a well-formed first segment, rendered by the text it took. */
  lemma ParseSegmentsStep(s: string) returns (seg: Segment, k: nat)
    requires s != [] && ParseSegments(s).Some?
    ensures 0 < k <= |s| && WellFormedSegment(seg) && s[..k] == RenderSegment(seg)
    ensures ParseSegments(s[k..]).Some? && ParseSegments(s).value == [seg] + ParseSegments(s[k..]).value
  {
    ParseOneSound(s);
    seg, k := ParseOne(s).value.0, ParseOne(s).value.1;
  }

  lemma {:induction false} RenderParseSegments(s: string, q: Query)
    requires ParseSegments(s) == Some(q)
    ensures WellFormed(q) && RenderSegments(q) == s
    decreases |s|
  {
    if s != [] {
      var seg, k := ParseSegmentsStep(s);
      var rest := ParseSegments(s[k..]).value;
      assert q == [seg] + rest;
      RenderParseSegments(s[k..], rest);
      assert WellFormed(q) by {
        forall i | 0 <= i < |q| ensures WellFormedSegment(q[i]) {
          if i > 0 {
            assert q[i] == rest[i - 1];
          }
        }
      }
      RenderSegmentsCons(seg, rest);
      assert s == s[..k] + s[k..];
    }
  }

  /** Parsing and rendering are inverse: a text parses to `q` exactly when it is `q` rendered. */
  lemma ParseIffRender(s: string, q: Query)
    ensures Parse(s) == Some(q) <==> WellFormed(q) && s == Render(q)
  {
    if Parse(s) == Some(q) {
      RenderParseSegments(s[1..], q);
      assert s == [s[0]] + s[1..];
    }
    if WellFormed(q) && s == Render(q) {
      ParseRenderSegments(q);
      assert s[1..] == RenderSegments(q);
    }
  }

  // ---------------------------------------------------------------- dotted names

  /** `a.b.c` as the query `$.a.b.c`. */
  function Fields(names: seq<string>): (q: Query)
    ensures |q| == |names|
    ensures forall i :: 0 <= i < |q| ==> q[i] == Field(names[i])
  {
    if names == [] then [] else [Field(names[0])] + Fields(names[1..])
  }

  lemma {:induction false} RenderFields(names: seq<string>)
    requires names != []
    ensures RenderSegments(Fields(names)) == "." + Join(names, '.')
  {
    if |names| > 1 {
      RenderFields(names[1..]);
      assert Fields(names) == [Field(names[0])] + Fields(names[1..]);
    }
  }

  /**
    A root path made of dotted names compiles to one field descent per name, which matches exactly
    the locations that take those keys from the root.
   */
  lemma DottedPathCompiles(names: seq<string>)
    requires names != [] && forall i :: 0 <= i < |names| ==> IsName(names[i])
    ensures Parse("$." + Join(names, '.')) == Some(Fields(names))
  {
    RenderFields(names);
    assert "$." + Join(names, '.') == Render(Fields(names));
    ParseIffRender("$." + Join(names, '.'), Fields(names));
  }

  lemma FieldsMatch(names: seq<string>, loc: Location)
    ensures Matches(Fields(names), loc) <==>
      |loc| == |names| && forall i :: 0 <= i < |loc| ==> loc[i].step == Key(names[i])
  {
  }
}
