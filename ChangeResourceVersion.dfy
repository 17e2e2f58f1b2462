/**
  The `ChangeResourceVersion` recipe: pin every resource of one type to a version, or unpin it.

  Two matchers are built from the resource type: one for the resource mapping itself
  (`$.resources[?(@.type == 'T')]`) and one for its `version` entry (the same path followed by
  `.version`). Pinning appends a `version` entry to a matched resource that has none and overwrites
  an existing scalar one; unpinning deletes every matched `version` entry.
 */
module ChangeResourceVersion {
  import opened Wrappers
  import opened Strings
  import opened Yaml
  import opened JsonPath
  import opened Recipe

  /** `version == None` is the Java `null`: clear the pins. */
  datatype ChangeResourceVersion = ChangeResourceVersion(resourceType: string, version: Option<string>)

  function ResourcePath(t: string): string {
    "$.resources[?(@.type == '" + t + "')]"
  }

  function VersionPath(t: string): string {
    "$.resources[?(@.type == '" + t + "')].version"
  }

  function ResourceMatcher(r: ChangeResourceVersion): JsonPathMatcher {
    JsonPathMatcher(ResourcePath(r.resourceType))
  }

  function VersionMatcher(r: ChangeResourceVersion): JsonPathMatcher {
    JsonPathMatcher(VersionPath(r.resourceType))
  }

  // ---------------------------------------------------------------- what the matchers accept

  function ResourceQuery(t: string): Query {
    [Field("resources"), Filter("type", t)]
  }

  function VersionQuery(t: string): Query {
    ResourceQuery(t) + [Field("version")]
  }

  lemma ResourceQueryBySegment(t: string)
    ensures Render(ResourceQuery(t)) == "$" + RenderSegment(Field("resources")) + RenderSegment(Filter("type", t))
  {
    var a, b := Field("resources"), Filter("type", t);
    assert ResourceQuery(t) == [a] + [b];
    RenderAppend([a], [b]);
    RenderSingle(a);
    RenderSingle(b);
  }

  lemma ResourceQueryRendered(t: string)
    ensures Render(ResourceQuery(t)) == ResourcePath(t)
  {
    ResourceQueryBySegment(t);
    ResourceSegmentTexts(t);
    ResourcePathText(t);
  }

  lemma ResourceSegmentTexts(t: string)
    ensures RenderSegment(Field("resources")) == ".resources"
    ensures RenderSegment(Filter("type", t)) == "[?(@.type == '" + t + "')]"
  {
  }

  lemma ResourcePathText(t: string)
    ensures "$" + ".resources" + "[?(@.type == '" + t + "')]" == ResourcePath(t)
  {
  }

  lemma VersionQueryRendered(t: string)
    ensures Render(VersionQuery(t)) == VersionPath(t)
  {
    ResourceQueryRendered(t);
    RenderAppend(ResourceQuery(t), [Field("version")]);
    RenderSingle(Field("version"));
    var x := RenderSegments(ResourceQuery(t));
    ConcatAssoc("$", x, ".version");
    assert ResourcePath(t) + ".version" == VersionPath(t);
  }

  lemma QueriesWellFormed(t: string)
    requires IsLiteral(t)
    ensures WellFormed(ResourceQuery(t)) && WellFormed(VersionQuery(t))
  {
    assert IsName("resources") && IsName("type") && IsName("version");
  }

  /**
    A resource type without a quote compiles to the intended queries; a quote in it would end the
    filter literal early and let the rest of the type be read as more path.
   */
  lemma MatchersCompile(r: ChangeResourceVersion)
    requires IsLiteral(r.resourceType)
    ensures Compile(ResourceMatcher(r)) == Some(ResourceQuery(r.resourceType))
    ensures Compile(VersionMatcher(r)) == Some(VersionQuery(r.resourceType))
  {
    var t := r.resourceType;
    ResourceQueryRendered(t);
    VersionQueryRendered(t);
    QueriesWellFormed(t);
    ParseIffRender(ResourcePath(t), ResourceQuery(t));
    ParseIffRender(VersionPath(t), VersionQuery(t));
  }

  /** An item of the root's `resources` that is a mapping whose `type` is the scalar `t`. */
  predicate ResourceLocation(t: string, loc: Location) {
    && |loc| == 2
    && loc[0].step == Key("resources")
    && loc[1].node.Mapping? && Lookup(loc[1].node.entries, "type") == Some(Scalar(t))
  }

  /** The `version` entry of such a resource. */
  predicate VersionLocation(t: string, loc: Location) {
    |loc| == 3 && ResourceLocation(t, loc[..2]) && loc[2].step == Key("version")
  }

  lemma ResourceMatches(r: ChangeResourceVersion, loc: Location)
    requires IsLiteral(r.resourceType)
    ensures MatchesAt(ResourceMatcher(r), loc) <==> ResourceLocation(r.resourceType, loc)
  {
    MatchersCompile(r);
    var q := ResourceQuery(r.resourceType);
    if ResourceLocation(r.resourceType, loc) {
      forall i | 0 <= i < 2 ensures SegmentMatches(q[i], loc[i]) {
      }
    }
    if Matches(q, loc) {
      assert SegmentMatches(q[0], loc[0]);
      assert SegmentMatches(q[1], loc[1]);
    }
  }

  lemma VersionMatches(r: ChangeResourceVersion, loc: Location)
    requires IsLiteral(r.resourceType)
    ensures MatchesAt(VersionMatcher(r), loc) <==> VersionLocation(r.resourceType, loc)
  {
    MatchersCompile(r);
    var q := VersionQuery(r.resourceType);
    if VersionLocation(r.resourceType, loc) {
      ResourceMatches(r, loc[..2]);
      forall i | 0 <= i < 3 ensures SegmentMatches(q[i], loc[i]) {
        if i < 2 {
          assert q[i] == ResourceQuery(r.resourceType)[i] && loc[i] == loc[..2][i];
        }
      }
    }
    if Matches(q, loc) {
      assert SegmentMatches(q[0], loc[0]);
      assert SegmentMatches(q[1], loc[1]);
      assert SegmentMatches(q[2], loc[2]);
    }
  }

  // ---------------------------------------------------------------- the visitor

  /**
    `visitMappingEntry` on entry `e` at location `loc`; `visited` is what `super.visitMappingEntry`
    makes of the entry's value. `None` is the `null` that deletes the entry.
   */
  function VisitEntry(r: ChangeResourceVersion, e: Entry, loc: Location, visited: Node): (out: Option<Entry>)
    ensures out.None? <==> MatchesAt(VersionMatcher(r), loc) && r.version.None?
    ensures out.Some? ==> out.value.key == e.key
  {
    if MatchesAt(VersionMatcher(r), loc) && r.version.None? then None
    else if MatchesAt(VersionMatcher(r), loc) && e.value.Scalar? && e.value.text != r.version.value then
      Some(Entry(e.key, Scalar(r.version.value)))
    else Some(Entry(e.key, visited))
  }

  /**
    The visitor on the subtree `n` at location `loc`. A matched resource mapping that must be pinned
    and has no `version` entry gets one appended and is not descended into; every other mapping has
    its entries visited, deleted ones dropped; a sequence has its items visited.
   */
  function VisitNode(r: ChangeResourceVersion, n: Node, loc: Location): (out: Node)
    ensures out.Scalar? == n.Scalar? && out.Mapping? == n.Mapping?
    ensures n.Scalar? ==> out == n
    ensures n.Sequence? ==> ChildCount(out) == ChildCount(n)
    decreases n
  {
    match n
    case Scalar(_) => n
    case Mapping(es) =>
      if MatchesAt(ResourceMatcher(r), loc) && r.version.Some? && Lookup(es, "version").None? then
        Mapping(es + [Entry("version", Scalar(r.version.value))])
      else
        Mapping(Somes(seq(|es|, i requires 0 <= i < |es| =>
          VisitEntry(r, es[i], loc + [Child(n, i)], VisitNode(r, es[i].value, loc + [Child(n, i)])))))
    case Sequence(items) =>
      Sequence(seq(|items|, i requires 0 <= i < |items| => VisitNode(r, items[i], loc + [Child(n, i)])))
  }

  function VisitFile(r: ChangeResourceVersion, file: SourceFile): (out: SourceFile)
    ensures out.sourcePath == file.sourcePath && out.YamlDocuments? == file.YamlDocuments?
    ensures file.YamlDocuments? ==> |out.documents| == |file.documents|
    ensures file.OtherSource? ==> out == file
  {
    match file
    case OtherSource(_) => file
    case YamlDocuments(path, docs) =>
      YamlDocuments(path, seq(|docs|, d requires 0 <= d < |docs| => VisitNode(r, docs[d], [])))
  }

  /** The recipe over a whole run: one output per input, in order, with non-YAML files as they were. */
  function Run(r: ChangeResourceVersion, before: seq<SourceFile>): (after: seq<SourceFile>)
    ensures |after| == |before|
    ensures forall i :: 0 <= i < |before| ==>
      && after[i].sourcePath == before[i].sourcePath
      && after[i].YamlDocuments? == before[i].YamlDocuments?
      && (before[i].OtherSource? ==> after[i] == before[i])
  {
    seq(|before|, i requires 0 <= i < |before| => VisitFile(r, before[i]))
  }

  // ---------------------------------------------------------------- entries without a key

  /** The entries whose key is not `k`, in their order. */
  function WithoutKey(es: seq<Entry>, k: string): (r: seq<Entry>)
    ensures Lookup(r, k).None?
    ensures forall e :: e in r <==> e in es && e.key != k
  {
    if es == [] then []
    else
      var rest := WithoutKey(es[1..], k);
      assert forall e :: e in es <==> e == es[0] || e in es[1..];
      (if es[0].key == k then [] else [es[0]]) + rest
  }

  lemma {:induction false} SomesWithoutKey(es: seq<Entry>, k: string)
    ensures Somes(seq(|es|, i requires 0 <= i < |es| => if es[i].key == k then None else Some(es[i]))) == WithoutKey(es, k)
  {
    var xs := seq(|es|, i requires 0 <= i < |es| => if es[i].key == k then None else Some(es[i]));
    if es != [] {
      var ys := seq(|es[1..]|, i requires 0 <= i < |es[1..]| => if es[1..][i].key == k then None else Some(es[1..][i]));
      assert xs[1..] == ys;
      SomesWithoutKey(es[1..], k);
    }
  }

  // ---------------------------------------------------------------- what the visitor does

  /** The children of a mapping no matcher can reach below are the entries as they were. */
  lemma EntriesKept(n: Node, out: seq<Option<Entry>>)
    requires n.Mapping? && |out| == |n.entries|
    requires forall i :: 0 <= i < |out| ==> out[i] == Some(n.entries[i])
    ensures Somes(out) == n.entries
  {
  }

  /**
    The visitor returns as it was any node whose own location is three or more links deep, so nothing
    inside the value of a resource's entry changes. A `version` scalar three links deep can still be
    replaced, but by the visit of its entry one level up. The same holds for a node whose location is
    two links deep and is not a matched resource. Both matchers reach only locations two and three
    links deep.
   */
  lemma {:induction false} Untouched(r: ChangeResourceVersion, n: Node, loc: Location)
    requires IsLiteral(r.resourceType)
    requires |loc| >= 3 || (|loc| == 2 && !ResourceLocation(r.resourceType, loc))
    ensures VisitNode(r, n, loc) == n
    decreases n
  {
    ResourceMatches(r, loc);
    match n
    case Scalar(_) =>
    case Mapping(es) =>
      var xs := seq(|es|, i requires 0 <= i < |es| =>
        VisitEntry(r, es[i], loc + [Child(n, i)], VisitNode(r, es[i].value, loc + [Child(n, i)])));
      forall i | 0 <= i < |es| ensures xs[i] == Some(es[i]) {
        var l := loc + [Child(n, i)];
        assert l[..2] == loc[..2];
        VersionMatches(r, l);
        Untouched(r, es[i].value, l);
      }
      EntriesKept(n, xs);
    case Sequence(items) =>
      forall i | 0 <= i < |items| ensures VisitNode(r, items[i], loc + [Child(n, i)]) == items[i] {
        Untouched(r, items[i], loc + [Child(n, i)]);
      }
  }

  /** Less than two links deep, the visitor keeps every child and descends into it. */
  lemma ShallowChild(r: ChangeResourceVersion, n: Node, loc: Location, i: nat)
    requires IsLiteral(r.resourceType)
    requires |loc| <= 1 && i < ChildCount(n)
    ensures i < ChildCount(VisitNode(r, n, loc))
    ensures Child(VisitNode(r, n, loc), i).node == VisitNode(r, Child(n, i).node, loc + [Child(n, i)])
  {
    var c := Child(n, i);
    var out := VisitNode(r, n, loc);
    match n
    case Mapping(es) =>
      ResourceMatches(r, loc);
      var xs := seq(|es|, j requires 0 <= j < |es| =>
        VisitEntry(r, es[j], loc + [Child(n, j)], VisitNode(r, es[j].value, loc + [Child(n, j)])));
      assert out == Mapping(Somes(xs));
      forall j | 0 <= j < |es| ensures xs[j].Some? {
        VersionMatches(r, loc + [Child(n, j)]);
      }
      assert out.entries[i] == xs[i].value;
      VersionMatches(r, loc + [c]);
      assert xs[i].value == Entry(es[i].key, VisitNode(r, c.node, loc + [c]));
    case Sequence(items) =>
      assert out.items[i] == VisitNode(r, c.node, loc + [c]);
  }

  /** Less than two links deep, the visitor neither inserts nor deletes: kind, child count and keys stay. */
  lemma ShallowShape(r: ChangeResourceVersion, n: Node, loc: Location)
    requires IsLiteral(r.resourceType) && |loc| <= 1
    ensures SameShape(n, VisitNode(r, n, loc))
  {
    var out := VisitNode(r, n, loc);
    match n
    case Scalar(_) =>
    case Mapping(es) =>
      ResourceMatches(r, loc);
      var xs := seq(|es|, j requires 0 <= j < |es| =>
        VisitEntry(r, es[j], loc + [Child(n, j)], VisitNode(r, es[j].value, loc + [Child(n, j)])));
      assert out == Mapping(Somes(xs));
      forall j | 0 <= j < |es| ensures xs[j].Some? {
        VersionMatches(r, loc + [Child(n, j)]);
      }
      forall j | 0 <= j < |es| ensures Child(out, j).step == Child(n, j).step {
        assert out.entries[j] == xs[j].value;
      }
    case Sequence(items) =>
  }

  /**
    Above the resources nothing is inserted or deleted: the node at a position at most two links
    deep is still there, and is the visitor's result for the node that was there; less than two
    links deep it also keeps its kind, its number of children and its keys.
   */
  lemma {:induction false} VisitAt(r: ChangeResourceVersion, n: Node, loc: Location, pos: seq<nat>)
    requires IsLiteral(r.resourceType)
    requires At(n, pos).Some? && |loc| + |pos| <= 2
    ensures At(VisitNode(r, n, loc), pos) == Some(VisitNode(r, At(n, pos).value, loc + LocOf(n, pos)))
    ensures |loc| + |pos| < 2 ==> SameShape(At(n, pos).value, At(VisitNode(r, n, loc), pos).value)
    decreases pos
  {
    if |loc| + |pos| < 2 {
      ShallowShape(r, At(n, pos).value, loc + LocOf(n, pos));
    }
    if pos == [] {
      assert loc + [] == loc;
    } else {
      var c := Child(n, pos[0]);
      ShallowChild(r, n, loc, pos[0]);
      VisitAt(r, c.node, loc + [c], pos[1..]);
      assert loc + [c] + LocOf(c.node, pos[1..]) == loc + LocOf(n, pos);
    }
  }

  /** Pinning a matched resource without a `version` entry appends exactly one, at the end. */
  lemma PinAppends(r: ChangeResourceVersion, es: seq<Entry>, loc: Location)
    requires IsLiteral(r.resourceType) && r.version.Some?
    requires ResourceLocation(r.resourceType, loc) && Lookup(es, "version").None?
    ensures VisitNode(r, Mapping(es), loc) == Mapping(es + [Entry("version", Scalar(r.version.value))])
  {
    ResourceMatches(r, loc);
  }

  /** An entry of a pinned resource: a scalar `version` holds `v`; anything else is as it was. */
  function Pinned(e: Entry, v: string): Entry {
    if e.key == "version" && e.value.Scalar? then Entry("version", Scalar(v)) else e
  }

  /**
    Pinning a matched resource that has a `version` entry: a scalar version becomes the new one (an
    equal one is left as it is); every other entry, a non-scalar version included, is kept, and the
    keys keep their order.
   */
  lemma PinOverwrites(r: ChangeResourceVersion, es: seq<Entry>, loc: Location)
    requires IsLiteral(r.resourceType) && r.version.Some?
    requires ResourceLocation(r.resourceType, loc) && Lookup(es, "version").Some?
    ensures var out := VisitNode(r, Mapping(es), loc);
      && out.Mapping? && |out.entries| == |es|
      && forall i :: 0 <= i < |es| ==> out.entries[i] == Pinned(es[i], r.version.value)
  {
    var n := Mapping(es);
    ResourceMatches(r, loc);
    var xs := seq(|es|, i requires 0 <= i < |es| =>
      VisitEntry(r, es[i], loc + [Child(n, i)], VisitNode(r, es[i].value, loc + [Child(n, i)])));
    forall i | 0 <= i < |es|
      ensures xs[i] == Some(Pinned(es[i], r.version.value))
    {
      var l := loc + [Child(n, i)];
      assert l[..2] == loc;
      VersionMatches(r, l);
      Untouched(r, es[i].value, l);
    }
  }

  /** Unpinning a matched resource deletes every `version` entry and keeps the rest in order. */
  lemma Unpin(r: ChangeResourceVersion, es: seq<Entry>, loc: Location)
    requires IsLiteral(r.resourceType) && r.version.None?
    requires ResourceLocation(r.resourceType, loc)
    ensures VisitNode(r, Mapping(es), loc) == Mapping(WithoutKey(es, "version"))
  {
    var n := Mapping(es);
    ResourceMatches(r, loc);
    var xs := seq(|es|, i requires 0 <= i < |es| =>
      VisitEntry(r, es[i], loc + [Child(n, i)], VisitNode(r, es[i].value, loc + [Child(n, i)])));
    var ys := seq(|es|, i requires 0 <= i < |es| => if es[i].key == "version" then None else Some(es[i]));
    forall i | 0 <= i < |es| ensures xs[i] == ys[i] {
      var l := loc + [Child(n, i)];
      assert l[..2] == loc;
      VersionMatches(r, l);
      Untouched(r, es[i].value, l);
    }
    assert xs == ys;
    SomesWithoutKey(es, "version");
  }

  /**
    In a YAML file, the node at a position two links deep afterwards is the visitor's result on the
    node that was there, at that node's location; together with the lemmas above this says what
    becomes of every resource.
   */
  lemma RunAt(r: ChangeResourceVersion, before: seq<SourceFile>, i: int, d: int, pos: seq<nat>)
    requires IsLiteral(r.resourceType)
    requires 0 <= i < |before| && before[i].YamlDocuments? && 0 <= d < |before[i].documents|
    requires At(before[i].documents[d], pos).Some? && |pos| <= 2
    ensures var doc := before[i].documents[d];
      At(Run(r, before)[i].documents[d], pos) == Some(VisitNode(r, At(doc, pos).value, LocOf(doc, pos)))
    ensures var doc := before[i].documents[d];
      |pos| < 2 ==> SameShape(At(doc, pos).value, At(Run(r, before)[i].documents[d], pos).value)
  {
    var doc := before[i].documents[d];
    VisitAt(r, doc, [], pos);
    assert [] + LocOf(doc, pos) == LocOf(doc, pos);
  }

  /** A resource whose `type` is not the scalar resource type comes out as it went in. */
  lemma OtherTypeUntouched(r: ChangeResourceVersion, before: seq<SourceFile>, i: int, d: int, pos: seq<nat>)
    requires IsLiteral(r.resourceType)
    requires 0 <= i < |before| && before[i].YamlDocuments? && 0 <= d < |before[i].documents|
    requires At(before[i].documents[d], pos).Some? && |pos| == 2
    requires var n := At(before[i].documents[d], pos).value;
      !n.Mapping? || Lookup(n.entries, "type") != Some(Scalar(r.resourceType))
    ensures At(Run(r, before)[i].documents[d], pos) == At(before[i].documents[d], pos)
  {
    var doc := before[i].documents[d];
    RunAt(r, before, i, d, pos);
    Untouched(r, At(doc, pos).value, LocOf(doc, pos));
  }

  // ---------------------------------------------------------------- the pin and unpin examples

  /** A document whose root holds only a `resources` sequence. */
  function ResourcesDocument(items: seq<Node>): Node {
    Mapping([Entry("resources", Sequence(items))])
  }

  /** The location of resource `k` in such a document. */
  function ItemLocation(items: seq<Node>, k: nat): Location
    requires k < |items|
  {
    [Link(Key("resources"), Sequence(items)), Link(Index(k), items[k])]
  }

  /** On such a document the visitor works resource by resource. */
  lemma VisitResourcesDocument(r: ChangeResourceVersion, items: seq<Node>)
    requires IsLiteral(r.resourceType)
    ensures VisitNode(r, ResourcesDocument(items), []) ==
      ResourcesDocument(seq(|items|, k requires 0 <= k < |items| => VisitNode(r, items[k], ItemLocation(items, k))))
  {
    var doc := ResourcesDocument(items);
    var c := Child(doc, 0);
    ShallowChild(r, doc, [], 0);
    assert [] + [c] == [c];
    var out := VisitNode(r, doc, []);
    assert |out.entries| == 1 && out.entries[0].key == "resources";
    var seqOut := VisitNode(r, Sequence(items), [c]);
    assert out.entries[0].value == seqOut;
    assert c == Link(Key("resources"), Sequence(items));
    var expected := seq(|items|, k requires 0 <= k < |items| => VisitNode(r, items[k], ItemLocation(items, k)));
    forall k | 0 <= k < |items| ensures seqOut.items[k] == expected[k] {
      ShallowChild(r, Sequence(items), [c], k);
      assert [c] + [Child(Sequence(items), k)] == ItemLocation(items, k);
    }
    assert seqOut == Sequence(expected);
    assert out.entries == [Entry("resources", Sequence(expected))];
  }

  /** A resource of the examples: a name, the type `git` and, maybe, a version. */
  function GitResource(name: string, version: Option<string>): Node {
    Mapping([Entry("name", Scalar(name)), Entry("type", Scalar("git"))]
      + if version.Some? then [Entry("version", Scalar(version.value))] else [])
  }

  lemma GitIsLiteral()
    ensures IsLiteral("git")
  {
  }

  lemma GitResourceLocated(items: seq<Node>, k: nat, name: string, version: Option<string>)
    requires k < |items| && items[k] == GitResource(name, version)
    ensures ResourceLocation("git", ItemLocation(items, k))
    ensures version.None? ==> Lookup(items[k].entries, "version").None?
    ensures version.Some? ==> Lookup(items[k].entries, "version") == Some(Scalar(version.value))
  {
    var es := items[k].entries;
    assert es[0].key == "name" && es[1] == Entry("type", Scalar("git"));
    if version.Some? {
      assert es[2] == Entry("version", Scalar(version.value));
    }
  }

  /** Pinning one example resource: whatever version it had, or none, it ends with the new one. */
  lemma PinGitResource(r: ChangeResourceVersion, items: seq<Node>, k: nat, name: string, version: Option<string>)
    requires r.resourceType == "git" && r.version.Some?
    requires k < |items| && items[k] == GitResource(name, version)
    ensures VisitNode(r, items[k], ItemLocation(items, k)) == GitResource(name, r.version)
  {
    GitIsLiteral();
    GitResourceLocated(items, k, name, version);
    if version.None? {
      PinAppends(r, items[k].entries, ItemLocation(items, k));
    } else {
      PinPinnedGitResource(r, items, k, name, version.value);
    }
  }

  /** Pinning the entries of a pinned example resource replaces its version and keeps the rest. */
  lemma PinnedGitEntries(name: string, version: string, v: string)
    ensures var es := GitResource(name, Some(version)).entries;
      var pinned := GitResource(name, Some(v)).entries;
      |es| == |pinned| == 3 && forall i :: 0 <= i < 3 ==> Pinned(es[i], v) == pinned[i]
  {
    var es := GitResource(name, Some(version)).entries;
    assert es[0].key == "name" && es[0].key != "version";
    assert es[1].key == "type" && es[1].key != "version";
  }

  lemma PinPinnedGitResource(r: ChangeResourceVersion, items: seq<Node>, k: nat, name: string, version: string)
    requires r.resourceType == "git" && r.version.Some? && IsLiteral("git")
    requires k < |items| && items[k] == GitResource(name, Some(version))
    requires ResourceLocation("git", ItemLocation(items, k))
    requires Lookup(items[k].entries, "version").Some?
    ensures VisitNode(r, items[k], ItemLocation(items, k)) == GitResource(name, r.version)
  {
    var es := items[k].entries;
    var pinned := GitResource(name, r.version).entries;
    PinOverwrites(r, es, ItemLocation(items, k));
    PinnedGitEntries(name, version, r.version.value);
    var out := VisitNode(r, items[k], ItemLocation(items, k));
    assert out.entries == pinned;
  }

  lemma {:induction false} WithoutKeyAppend(xs: seq<Entry>, ys: seq<Entry>, k: string)
    ensures WithoutKey(xs + ys, k) == WithoutKey(xs, k) + WithoutKey(ys, k)
  {
    if xs == [] {
      assert xs + ys == ys;
    } else {
      assert (xs + ys)[0] == xs[0] && (xs + ys)[1..] == xs[1..] + ys;
      WithoutKeyAppend(xs[1..], ys, k);
    }
  }

  lemma WithoutKeySingle(e: Entry, k: string)
    ensures WithoutKey([e], k) == if e.key == k then [] else [e]
  {
    assert [e][1..] == [];
  }

  /** The name and type entries of an example resource have no version entry to drop. */
  lemma GitBaseWithoutVersion(name: string)
    ensures WithoutKey(GitResource(name, None).entries, "version") == GitResource(name, None).entries
  {
    var e0, e1 := Entry("name", Scalar(name)), Entry("type", Scalar("git"));
    assert e0.key != "version" && e1.key != "version";
    assert GitResource(name, None).entries == [e0] + [e1];
    WithoutKeyAppend([e0], [e1], "version");
    WithoutKeySingle(e0, "version");
    WithoutKeySingle(e1, "version");
  }

  /** Dropping the version entry of an example resource leaves the unpinned resource. */
  lemma GitWithoutVersion(name: string, version: Option<string>)
    ensures WithoutKey(GitResource(name, version).entries, "version") == GitResource(name, None).entries
  {
    var base := GitResource(name, None).entries;
    GitBaseWithoutVersion(name);
    if version.Some? {
      var extra := Entry("version", Scalar(version.value));
      assert GitResource(name, version).entries == base + [extra];
      WithoutKeyAppend(base, [extra], "version");
      WithoutKeySingle(extra, "version");
      assert base + [] == base;
    }
  }

  /** Unpinning one example resource: its version, if any, is gone and the rest is as it was. */
  lemma UnpinGitResource(r: ChangeResourceVersion, items: seq<Node>, k: nat, name: string, version: Option<string>)
    requires r == ChangeResourceVersion("git", None)
    requires k < |items| && items[k] == GitResource(name, version)
    ensures VisitNode(r, items[k], ItemLocation(items, k)) == GitResource(name, None)
  {
    GitIsLiteral();
    GitResourceLocated(items, k, name, version);
    Unpin(r, items[k].entries, ItemLocation(items, k));
    GitWithoutVersion(name, version);
  }

  /** Pinning a document of three `git` resources pins each of them. */
  lemma PinThree(r: ChangeResourceVersion, names: seq<string>, versions: seq<Option<string>>)
    requires r.resourceType == "git" && r.version.Some?
    requires |names| == 3 && |versions| == 3
    ensures var items := seq(3, k requires 0 <= k < 3 => GitResource(names[k], versions[k]));
      VisitNode(r, ResourcesDocument(items), [])
      == ResourcesDocument(seq(3, k requires 0 <= k < 3 => GitResource(names[k], r.version)))
  {
    var items := seq(3, k requires 0 <= k < 3 => GitResource(names[k], versions[k]));
    GitIsLiteral();
    VisitResourcesDocument(r, items);
    var visited := seq(|items|, k requires 0 <= k < |items| => VisitNode(r, items[k], ItemLocation(items, k)));
    var expected := seq(3, k requires 0 <= k < 3 => GitResource(names[k], r.version));
    forall k | 0 <= k < 3 ensures visited[k] == expected[k] {
      PinGitResource(r, items, k, names[k], versions[k]);
    }
    assert visited == expected;
  }

  /** Unpinning a document of three `git` resources unpins each of them. */
  lemma UnpinThree(names: seq<string>, versions: seq<Option<string>>)
    requires |names| == 3 && |versions| == 3
    ensures var items := seq(3, k requires 0 <= k < 3 => GitResource(names[k], versions[k]));
      VisitNode(ChangeResourceVersion("git", None), ResourcesDocument(items), [])
      == ResourcesDocument(seq(3, k requires 0 <= k < 3 => GitResource(names[k], None)))
  {
    var r := ChangeResourceVersion("git", None);
    var items := seq(3, k requires 0 <= k < 3 => GitResource(names[k], versions[k]));
    GitIsLiteral();
    VisitResourcesDocument(r, items);
    var visited := seq(|items|, k requires 0 <= k < |items| => VisitNode(r, items[k], ItemLocation(items, k)));
    var expected := seq(3, k requires 0 <= k < 3 => GitResource(names[k], None));
    forall k | 0 <= k < 3 ensures visited[k] == expected[k] {
      UnpinGitResource(r, items, k, names[k], versions[k]);
    }
    assert visited == expected;
  }

  const ExampleNames := ["git-repo", "git-repo2", "git-repo3"]
  const ExampleVersions := [Some("1.0"), Some("2.0"), None]

  /** Three `git` resources pinned at 1.0, at 2.0 and not at all all end pinned at 2.0. */
  lemma PinVersionExample()
    ensures var items := seq(3, k requires 0 <= k < 3 => GitResource(ExampleNames[k], ExampleVersions[k]));
      VisitNode(ChangeResourceVersion("git", Some("2.0")), ResourcesDocument(items), [])
      == ResourcesDocument(seq(3, k requires 0 <= k < 3 => GitResource(ExampleNames[k], Some("2.0"))))
  {
    PinThree(ChangeResourceVersion("git", Some("2.0")), ExampleNames, ExampleVersions);
  }

  /** Unpinning the same three resources removes both versions and adds none. */
  lemma UnpinVersionExample()
    ensures var items := seq(3, k requires 0 <= k < 3 => GitResource(ExampleNames[k], ExampleVersions[k]));
      VisitNode(ChangeResourceVersion("git", None), ResourcesDocument(items), [])
      == ResourcesDocument(seq(3, k requires 0 <= k < 3 => GitResource(ExampleNames[k], None)))
  {
    UnpinThree(ExampleNames, ExampleVersions);
  }
}
