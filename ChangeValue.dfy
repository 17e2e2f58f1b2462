/**
  The `ChangeValue` recipe: set every scalar at a key path to a new value, across a set of files.

  A run has two passes. The scan reads every file and collects, for each entry at the key path whose
  value is a Concourse parameter `((name))`, a matcher for the parameter's binding `$.name`. The
  transform then visits each YAML file the file matcher admits and replaces the scalar value of every
  entry matched by the key path or by a collected matcher, provided the optional old-value pattern
  matches the current text. Redirection is followed one hop only, and a reference site that itself
  matches the key path is overwritten like any other scalar.
 */
module ChangeValue {
  import opened Wrappers
  import opened Yaml
  import opened JsonPath
  import opened Parameters
  import opened Recipe

  datatype ChangeValue = ChangeValue(
    keyPath: string,
    oldValue: Option<string>,
    newValue: string,
    fileMatcher: Option<string>)

  /** `Pattern.compile(oldValue)` threw. */
  datatype Error = PatternSyntax(pattern: string)

  const OldValueMessage := "oldValue must be a compilable regular expression"

  function KeyPathMatcher(r: ChangeValue): JsonPathMatcher {
    JsonPathMatcher(r.keyPath)
  }

  /** Fails, on `oldValue` alone, exactly when an old value is given and does not compile. */
  function Validate(r: ChangeValue, re: Regex): (v: seq<Failure>)
    ensures v == [] <==> r.oldValue.None? || re.compiles(r.oldValue.value)
    ensures v != [] ==> v == [Failure("oldValue", OldValueMessage)]
  {
    ValidatePattern("oldValue", OldValueMessage, r.oldValue, re)
  }

  // ---------------------------------------------------------------- scan pass

  /** The matcher for the binding a parameter names. */
  function ParameterMatcher(n: Node): JsonPathMatcher
    requires IsParameter(n)
  {
    JsonPathMatcher(ToJsonPath(n).value)
  }

  /** The entry at `loc` with value `n` contributes a matcher to the scan. */
  predicate Collects(keyPath: JsonPathMatcher, loc: Location, n: Node) {
    MatchesAt(keyPath, loc) && n.Scalar? && IsParameter(n)
  }

  /**
    What the scan visitor collects from children `i..` of `n` (at `loc`), in visiting order: an entry
    first, then what lies below it, then its later siblings.
   */
  function ScanNode(keyPath: JsonPathMatcher, n: Node, loc: Location, i: nat): seq<JsonPathMatcher>
    requires i <= ChildCount(n)
    decreases n, ChildCount(n) - i
  {
    if i == ChildCount(n) then []
    else
      var c := Child(n, i);
      (if c.step.Key? && Collects(keyPath, loc + [c], c.node) then [ParameterMatcher(c.node)] else [])
      + ScanNode(keyPath, c.node, loc + [c], 0)
      + ScanNode(keyPath, n, loc, i + 1)
  }

  function ScanDocuments(keyPath: JsonPathMatcher, docs: seq<Node>): seq<JsonPathMatcher> {
    if docs == [] then []
    else ScanDocuments(keyPath, docs[..|docs| - 1]) + ScanNode(keyPath, docs[|docs| - 1], [], 0)
  }

  /** A non-YAML file has nothing for a YAML visitor to see. */
  function ScanFile(keyPath: JsonPathMatcher, file: SourceFile): seq<JsonPathMatcher> {
    if file.YamlDocuments? then ScanDocuments(keyPath, file.documents) else []
  }

  /** Everything the scan collects from `files`, in order. */
  function Collect(keyPath: JsonPathMatcher, files: seq<SourceFile>): seq<JsonPathMatcher> {
    if files == [] then []
    else Collect(keyPath, files[..|files| - 1]) + ScanFile(keyPath, files[|files| - 1])
  }

  /** The scan: one read-only visit of every file, file matcher or not, appending to one list. */
  method Scan(keyPath: JsonPathMatcher, files: seq<SourceFile>) returns (parametersToChange: seq<JsonPathMatcher>)
    ensures parametersToChange == Collect(keyPath, files)
  {
    parametersToChange := [];
    for i := 0 to |files|
      invariant parametersToChange == Collect(keyPath, files[..i])
    {
      assert files[..i + 1][..i] == files[..i];
      parametersToChange := parametersToChange + ScanFile(keyPath, files[i]);
    }
    assert files[..|files|] == files;
  }

  /** Entry `pos` of document `d` of file `f` is at the key path and holds a parameter. */
  predicate CollectedAt(keyPath: JsonPathMatcher, files: seq<SourceFile>, f: int, d: int, pos: seq<nat>) {
    && 0 <= f < |files| && files[f].YamlDocuments?
    && 0 <= d < |files[f].documents|
    && At(files[f].documents[d], pos).Some?
    && AtEntry(LocOf(files[f].documents[d], pos))
    && Collects(keyPath, LocOf(files[f].documents[d], pos), At(files[f].documents[d], pos).value)
  }

  /** Child `i` of `n`, when it is an entry at the key path holding a parameter, contributes its matcher. */
  lemma ScanNodeHere(keyPath: JsonPathMatcher, n: Node, loc: Location, i: nat)
    requires i < ChildCount(n)
    requires Child(n, i).step.Key? && Collects(keyPath, loc + [Child(n, i)], Child(n, i).node)
    ensures ParameterMatcher(Child(n, i).node) in ScanNode(keyPath, n, loc, i)
  {
  }

  /** What the subtree of child `i` and the later siblings contribute is part of what child `i` on contributes. */
  lemma ScanNodeIncludes(keyPath: JsonPathMatcher, n: Node, loc: Location, i: nat, m: JsonPathMatcher)
    requires i < ChildCount(n)
    requires m in ScanNode(keyPath, Child(n, i).node, loc + [Child(n, i)], 0) || m in ScanNode(keyPath, n, loc, i + 1)
    ensures m in ScanNode(keyPath, n, loc, i)
  {
  }

  /** Everything child `i` on contributes comes from child `i` itself, its subtree or its later siblings. */
  lemma ScanNodeCases(keyPath: JsonPathMatcher, n: Node, loc: Location, i: nat, m: JsonPathMatcher)
    requires i < ChildCount(n) && m in ScanNode(keyPath, n, loc, i)
    ensures var c := Child(n, i);
      || (c.step.Key? && Collects(keyPath, loc + [c], c.node) && m == ParameterMatcher(c.node))
      || m in ScanNode(keyPath, c.node, loc + [c], 0) || m in ScanNode(keyPath, n, loc, i + 1)
  {
  }

  /** An entry at the key path holding a parameter, found at position `pos` under `n`, with its matcher `m`. */
  predicate FoundAt(keyPath: JsonPathMatcher, n: Node, loc: Location, pos: seq<nat>, m: JsonPathMatcher) {
    && At(n, pos).Some? && AtEntry(LocOf(n, pos))
    && Collects(keyPath, loc + LocOf(n, pos), At(n, pos).value)
    && m == ParameterMatcher(At(n, pos).value)
  }

  lemma FoundLeaf(keyPath: JsonPathMatcher, n: Node, loc: Location, pos: seq<nat>, m: JsonPathMatcher)
    requires |pos| == 1 && FoundAt(keyPath, n, loc, pos, m)
    ensures pos[0] < ChildCount(n)
    ensures var c := Child(n, pos[0]);
      c.step.Key? && Collects(keyPath, loc + [c], c.node) && m == ParameterMatcher(c.node)
  {
    LocLeaf(n, pos);
  }

  lemma FoundInChild(keyPath: JsonPathMatcher, n: Node, loc: Location, pos: seq<nat>, m: JsonPathMatcher)
    requires |pos| > 1 && FoundAt(keyPath, n, loc, pos, m)
    ensures pos[0] < ChildCount(n)
    ensures FoundAt(keyPath, Child(n, pos[0]).node, loc + [Child(n, pos[0])], pos[1..], m)
  {
    LocStep(n, pos, loc);
    LocEntry(n, pos);
  }

  lemma {:induction false} ScanNodeComplete(keyPath: JsonPathMatcher, n: Node, loc: Location, i: nat, pos: seq<nat>)
    requires i <= ChildCount(n)
    requires At(n, pos).Some? && pos != [] && pos[0] >= i
    requires AtEntry(LocOf(n, pos)) && Collects(keyPath, loc + LocOf(n, pos), At(n, pos).value)
    ensures ParameterMatcher(At(n, pos).value) in ScanNode(keyPath, n, loc, i)
    decreases |pos|, pos[0] - i
  {
    var m := ParameterMatcher(At(n, pos).value);
    assert FoundAt(keyPath, n, loc, pos, m);
    if pos[0] > i {
      ScanNodeComplete(keyPath, n, loc, i + 1, pos);
      ScanNodeIncludes(keyPath, n, loc, i, m);
    } else if |pos| == 1 {
      FoundLeaf(keyPath, n, loc, pos, m);
      ScanNodeHere(keyPath, n, loc, i);
    } else {
      FoundInChild(keyPath, n, loc, pos, m);
      var c := Child(n, i);
      ScanNodeComplete(keyPath, c.node, loc + [c], 0, pos[1..]);
      ScanNodeIncludes(keyPath, n, loc, i, m);
    }
  }

  lemma FoundHere(keyPath: JsonPathMatcher, n: Node, loc: Location, i: nat)
    requires i < ChildCount(n)
    requires Child(n, i).step.Key? && Collects(keyPath, loc + [Child(n, i)], Child(n, i).node)
    ensures FoundAt(keyPath, n, loc, [i], ParameterMatcher(Child(n, i).node))
  {
    LocLeaf(n, [i]);
  }

  lemma FoundBelow(keyPath: JsonPathMatcher, n: Node, loc: Location, i: nat, rest: seq<nat>, m: JsonPathMatcher)
    requires i < ChildCount(n) && rest != []
    requires FoundAt(keyPath, Child(n, i).node, loc + [Child(n, i)], rest, m)
    ensures FoundAt(keyPath, n, loc, [i] + rest, m)
  {
    var pos := [i] + rest;
    assert pos[1..] == rest;
    LocStep(n, pos, loc);
    LocEntry(n, pos);
  }

  lemma {:induction false} ScanNodeSound(keyPath: JsonPathMatcher, n: Node, loc: Location, i: nat, m: JsonPathMatcher)
    returns (pos: seq<nat>)
    requires i <= ChildCount(n) && m in ScanNode(keyPath, n, loc, i)
    ensures At(n, pos).Some? && pos != [] && pos[0] >= i
    ensures AtEntry(LocOf(n, pos)) && Collects(keyPath, loc + LocOf(n, pos), At(n, pos).value)
    ensures m == ParameterMatcher(At(n, pos).value)
    decreases n, ChildCount(n) - i
  {
    ScanNodeCases(keyPath, n, loc, i, m);
    var c := Child(n, i);
    if m in ScanNode(keyPath, c.node, loc + [c], 0) {
      var rest := ScanNodeSound(keyPath, c.node, loc + [c], 0, m);
      FoundBelow(keyPath, n, loc, i, rest, m);
      pos := [i] + rest;
    } else if m in ScanNode(keyPath, n, loc, i + 1) {
      pos := ScanNodeSound(keyPath, n, loc, i + 1, m);
    } else {
      FoundHere(keyPath, n, loc, i);
      pos := [i];
    }
  }

  /** What the scan collects from one YAML file is part of what it collects from all of them. */
  lemma {:induction false} CollectIncludes(keyPath: JsonPathMatcher, files: seq<SourceFile>, f: int, m: JsonPathMatcher)
    requires 0 <= f < |files| && files[f].YamlDocuments? && m in ScanDocuments(keyPath, files[f].documents)
    ensures m in Collect(keyPath, files)
    decreases |files|
  {
    var last := |files| - 1;
    assert Collect(keyPath, files) == Collect(keyPath, files[..last]) + ScanFile(keyPath, files[last]);
    if f < last {
      assert files[..last][f] == files[f];
      CollectIncludes(keyPath, files[..last], f, m);
    }
  }

  /** What the scan collects from one document is part of what it collects from the file. */
  lemma {:induction false} DocumentsIncludes(keyPath: JsonPathMatcher, docs: seq<Node>, d: int, m: JsonPathMatcher)
    requires 0 <= d < |docs| && m in ScanNode(keyPath, docs[d], [], 0)
    ensures m in ScanDocuments(keyPath, docs)
    decreases |docs|
  {
    var last := |docs| - 1;
    assert ScanDocuments(keyPath, docs) == ScanDocuments(keyPath, docs[..last]) + ScanNode(keyPath, docs[last], [], 0);
    if d < last {
      assert docs[..last][d] == docs[d];
      DocumentsIncludes(keyPath, docs[..last], d, m);
    }
  }

  /** Every entry at the key path holding a parameter, in any file, contributes its matcher. */
  lemma CollectComplete(keyPath: JsonPathMatcher, files: seq<SourceFile>, f: int, d: int, pos: seq<nat>)
    requires CollectedAt(keyPath, files, f, d, pos)
    ensures ParameterMatcher(At(files[f].documents[d], pos).value) in Collect(keyPath, files)
  {
    var docs := files[f].documents;
    DocumentsComplete(keyPath, docs, d, pos);
    CollectIncludes(keyPath, files, f, ParameterMatcher(At(docs[d], pos).value));
  }

  lemma DocumentsComplete(keyPath: JsonPathMatcher, docs: seq<Node>, d: int, pos: seq<nat>)
    requires 0 <= d < |docs| && At(docs[d], pos).Some? && AtEntry(LocOf(docs[d], pos))
    requires Collects(keyPath, LocOf(docs[d], pos), At(docs[d], pos).value)
    ensures ParameterMatcher(At(docs[d], pos).value) in ScanDocuments(keyPath, docs)
  {
    var loc := LocOf(docs[d], pos);
    assert [] + loc == loc;
    ScanNodeComplete(keyPath, docs[d], [], 0, pos);
    DocumentsIncludes(keyPath, docs, d, ParameterMatcher(At(docs[d], pos).value));
  }

  lemma {:induction false} DocumentsSound(keyPath: JsonPathMatcher, docs: seq<Node>, m: JsonPathMatcher)
    returns (d: int, pos: seq<nat>)
    requires m in ScanDocuments(keyPath, docs)
    ensures 0 <= d < |docs| && At(docs[d], pos).Some? && AtEntry(LocOf(docs[d], pos))
    ensures Collects(keyPath, LocOf(docs[d], pos), At(docs[d], pos).value)
    ensures m == ParameterMatcher(At(docs[d], pos).value)
    decreases |docs|
  {
    var last := |docs| - 1;
    if m in ScanDocuments(keyPath, docs[..last]) {
      d, pos := DocumentsSound(keyPath, docs[..last], m);
      assert docs[..last][d] == docs[d];
    } else {
      d := last;
      pos := ScanNodeSound(keyPath, docs[d], [], 0, m);
      assert [] + LocOf(docs[d], pos) == LocOf(docs[d], pos);
    }
  }

  /** Everything the scan collects comes from an entry at the key path holding a parameter. */
  lemma {:induction false} CollectSound(keyPath: JsonPathMatcher, files: seq<SourceFile>, m: JsonPathMatcher)
    returns (f: int, d: int, pos: seq<nat>)
    requires m in Collect(keyPath, files)
    ensures CollectedAt(keyPath, files, f, d, pos)
    ensures m == ParameterMatcher(At(files[f].documents[d], pos).value)
    decreases |files|
  {
    var last := |files| - 1;
    if m in Collect(keyPath, files[..last]) {
      f, d, pos := CollectSound(keyPath, files[..last], m);
      assert files[..last][f] == files[f];
    } else {
      f := last;
      d, pos := DocumentsSound(keyPath, files[f].documents, m);
    }
  }

  // ---------------------------------------------------------------- transform pass

  /** The text an entry's scalar ends with: the new value when some matcher and the old-value test accept it. */
  function Decide(r: ChangeValue, re: Regex, params: seq<JsonPathMatcher>, loc: Location, text: string): (out: string)
    ensures out == text || out == r.newValue
    ensures out != text ==>
      && OldAccepts(r.oldValue, re, text)
      && (MatchesAt(KeyPathMatcher(r), loc) || exists m :: m in params && MatchesAt(m, loc))
  {
    if (MatchesAt(KeyPathMatcher(r), loc) || exists m :: m in params && MatchesAt(m, loc))
       && OldAccepts(r.oldValue, re, text)
    then r.newValue
    else text
  }

  /** One matcher's attempt on an entry: only a scalar value at a matched location, accepted by the old-value test. */
  function MaybeReplaceValue(r: ChangeValue, re: Regex, e: Entry, loc: Location, matcher: JsonPathMatcher): (e': Entry)
    ensures e'.key == e.key
    ensures e' != e ==>
      MatchesAt(matcher, loc) && e.value.Scalar? && OldAccepts(r.oldValue, re, e.value.text) && e'.value == Scalar(r.newValue)
  {
    if MatchesAt(matcher, loc) && e.value.Scalar? && OldAccepts(r.oldValue, re, e.value.text)
    then Entry(e.key, Scalar(r.newValue))
    else e
  }

  /**
    The transform visitor's work on one (already visited) entry at `loc`: every collected matcher in
    turn, then the key path. Since every replacement writes the same text, the outcome depends only on
    whether any matcher matches, not on their order.
   */
  method VisitMappingEntry(r: ChangeValue, re: Regex, params: seq<JsonPathMatcher>, loc: Location, e: Entry)
    returns (e': Entry)
    ensures e' == if e.value.Scalar? then Entry(e.key, Scalar(Decide(r, re, params, loc, e.value.text))) else e
  {
    e' := e;
    for i := 0 to |params|
      invariant e' == if e.value.Scalar? && MatchesBefore(params, i, loc) && OldAccepts(r.oldValue, re, e.value.text)
        then Entry(e.key, Scalar(r.newValue))
        else e
    {
      e' := MaybeReplaceValue(r, re, e', loc, params[i]);
    }
    MatchesBeforeAll(params, loc);
    e' := MaybeReplaceValue(r, re, e', loc, KeyPathMatcher(r));
  }

  /** One of the first `i` matchers matches `loc`. */
  predicate MatchesBefore(params: seq<JsonPathMatcher>, i: nat, loc: Location)
    requires i <= |params|
  {
    exists j :: 0 <= j < i && MatchesAt(params[j], loc)
  }

  lemma MatchesBeforeAll(params: seq<JsonPathMatcher>, loc: Location)
    ensures MatchesBefore(params, |params|, loc) <==> exists m :: m in params && MatchesAt(m, loc)
  {
    if exists m :: m in params && MatchesAt(m, loc) {
      var m :| m in params && MatchesAt(m, loc);
      var j :| 0 <= j < |params| && params[j] == m;
    }
  }

  function DocumentRewrite(r: ChangeValue, re: Regex, params: seq<JsonPathMatcher>): (Location, string) -> string {
    (loc, text) => Decide(r, re, params, loc, text)
  }

  /** A non-YAML file, or one the file matcher rejects, comes back as it was. */
  function TransformFile(r: ChangeValue, re: Regex, glob: Glob, params: seq<JsonPathMatcher>, file: SourceFile): (out: SourceFile)
    ensures out.sourcePath == file.sourcePath && out.YamlDocuments? == file.YamlDocuments?
    ensures file.YamlDocuments? ==> |out.documents| == |file.documents|
    ensures file.OtherSource? || !FileMatches(r.fileMatcher, glob, file.sourcePath) ==> out == file
  {
    if file.OtherSource? || !FileMatches(r.fileMatcher, glob, file.sourcePath) then file
    else
      YamlDocuments(file.sourcePath,
        seq(|file.documents|, d requires 0 <= d < |file.documents| =>
          RewriteScalars(file.documents[d], [], DocumentRewrite(r, re, params))))
  }

  /**
    A whole run: `Pattern.compile(oldValue)` first, then the scan over every file, then the
    transform of each file in place in the list.
   */
  function Run(r: ChangeValue, re: Regex, glob: Glob, before: seq<SourceFile>): (after: Result<seq<SourceFile>, Error>)
    ensures after.Err? <==> Validate(r, re) != []
    ensures after.Ok? ==> |after.value| == |before|
    ensures after.Ok? ==> forall i :: 0 <= i < |before| ==>
      && after.value[i].sourcePath == before[i].sourcePath
      && (before[i].OtherSource? ==> after.value[i] == before[i])
      && (!FileMatches(r.fileMatcher, glob, before[i].sourcePath) ==> after.value[i] == before[i])
  {
    if r.oldValue.Some? && !re.compiles(r.oldValue.value) then Err(PatternSyntax(r.oldValue.value))
    else
      var params := Collect(KeyPathMatcher(r), before);
      Ok(seq(|before|, i requires 0 <= i < |before| => TransformFile(r, re, glob, params, before[i])))
  }

  method Visit(r: ChangeValue, re: Regex, glob: Glob, before: seq<SourceFile>) returns (after: Result<seq<SourceFile>, Error>)
    ensures after == Run(r, re, glob, before)
  {
    if r.oldValue.Some? && !re.compiles(r.oldValue.value) {
      return Err(PatternSyntax(r.oldValue.value));
    }
    var parametersToChange := Scan(KeyPathMatcher(r), before);
    after := Ok(seq(|before|, i requires 0 <= i < |before| => TransformFile(r, re, glob, parametersToChange, before[i])));
  }

  // ---------------------------------------------------------------- what a run changes

  /**
    Position by position, in a YAML file the matcher admits: every node is still there with the same
    shape and keys; an entry's scalar becomes the new value exactly when the key path or a collected
    matcher matches its location and the old-value test accepts its text; every other scalar is kept.
   */
  lemma RunAt(r: ChangeValue, re: Regex, glob: Glob, before: seq<SourceFile>, i: int, d: int, pos: seq<nat>)
    requires Validate(r, re) == []
    requires 0 <= i < |before| && before[i].YamlDocuments? && FileMatches(r.fileMatcher, glob, before[i].sourcePath)
    requires 0 <= d < |before[i].documents|
    ensures var doc := before[i].documents[d];
      var out := Run(r, re, glob, before).value[i].documents[d];
      && (At(out, pos).Some? <==> At(doc, pos).Some?)
      && (At(doc, pos).Some? ==> SameShape(At(doc, pos).value, At(out, pos).value))
      && (At(doc, pos).Some? && At(doc, pos).value.Scalar? ==>
            var loc := LocOf(doc, pos);
            var s := At(doc, pos).value.text;
            At(out, pos) == Some(Scalar(
              if AtEntry(loc)
                 && (MatchesAt(KeyPathMatcher(r), loc) || exists m :: m in Collect(KeyPathMatcher(r), before) && MatchesAt(m, loc))
                 && OldAccepts(r.oldValue, re, s)
              then r.newValue else s)))
  {
    var params := Collect(KeyPathMatcher(r), before);
    var doc := before[i].documents[d];
    RewriteAt(doc, [], DocumentRewrite(r, re, params), pos);
    if At(doc, pos).Some? {
      assert [] + LocOf(doc, pos) == LocOf(doc, pos);
    }
  }

  /** A file in which no entry is matched by the key path or a collected matcher is returned unchanged. */
  lemma RunUntouched(r: ChangeValue, re: Regex, glob: Glob, before: seq<SourceFile>, i: int)
    requires Validate(r, re) == []
    requires 0 <= i < |before| && before[i].YamlDocuments?
    requires forall d, pos :: 0 <= d < |before[i].documents| && At(before[i].documents[d], pos).Some? ==>
      var loc := LocOf(before[i].documents[d], pos);
      !MatchesAt(KeyPathMatcher(r), loc) && forall m :: m in Collect(KeyPathMatcher(r), before) ==> !MatchesAt(m, loc)
    ensures Run(r, re, glob, before).value[i] == before[i]
  {
    var params := Collect(KeyPathMatcher(r), before);
    var docs := before[i].documents;
    var out := Run(r, re, glob, before).value[i];
    if FileMatches(r.fileMatcher, glob, before[i].sourcePath) {
      forall d | 0 <= d < |docs| ensures out.documents[d] == docs[d] {
        forall pos | At(docs[d], pos).Some? && At(docs[d], pos).value.Scalar? && AtEntry(LocOf(docs[d], pos))
          ensures DocumentRewrite(r, re, params)([] + LocOf(docs[d], pos), At(docs[d], pos).value.text)
                  == At(docs[d], pos).value.text
        {
          assert [] + LocOf(docs[d], pos) == LocOf(docs[d], pos);
        }
        RewriteIdentity(docs[d], [], DocumentRewrite(r, re, params));
      }
      assert out.documents == docs;
    }
  }

  /**
    One hop, across files: a `((a.b.c))` reference at the key path, in any file, makes the run
    overwrite the scalar bound at `$.a.b.c` in every file the file matcher admits, when the old-value
    test accepts it.
   */
  lemma OneHopRedirect(
    r: ChangeValue, re: Regex, glob: Glob, before: seq<SourceFile>,
    names: seq<string>, a: int, da: int, posA: seq<nat>, b: int, db: int, posB: seq<nat>)
    requires Validate(r, re) == []
    requires names != [] && forall k :: 0 <= k < |names| ==> IsName(names[k])
    requires 0 <= a < |before| && before[a].YamlDocuments? && 0 <= da < |before[a].documents|
    requires At(before[a].documents[da], posA) == Some(Scalar("((" + Strings.Join(names, '.') + "))"))
    requires AtEntry(LocOf(before[a].documents[da], posA))
    requires MatchesAt(KeyPathMatcher(r), LocOf(before[a].documents[da], posA))
    requires 0 <= b < |before| && before[b].YamlDocuments? && FileMatches(r.fileMatcher, glob, before[b].sourcePath)
    requires 0 <= db < |before[b].documents|
    requires At(before[b].documents[db], posB).Some? && At(before[b].documents[db], posB).value.Scalar?
    requires var locB := LocOf(before[b].documents[db], posB);
      |locB| == |names| && forall k :: 0 <= k < |names| ==> locB[k].step == Key(names[k])
    requires OldAccepts(r.oldValue, re, At(before[b].documents[db], posB).value.text)
    ensures At(Run(r, re, glob, before).value[b].documents[db], posB) == Some(Scalar(r.newValue))
  {
    var reference := Scalar("((" + Strings.Join(names, '.') + "))");
    DottedParameterPath(names);
    assert CollectedAt(KeyPathMatcher(r), before, a, da, posA);
    CollectComplete(KeyPathMatcher(r), before, a, da, posA);
    var m := ParameterMatcher(reference);
    var locB := LocOf(before[b].documents[db], posB);
    FieldsMatch(names, locB);
    assert MatchesAt(m, locB);
    assert AtEntry(locB) by {
      assert SegmentMatches(Fields(names)[|names| - 1], locB[|locB| - 1]);
    }
    RunAt(r, re, glob, before, b, db, posB);
  }

  /**
    With no old-value pattern, a parameter reference that itself sits at the key path is overwritten
    too: the transform applies the key path to every scalar, references included.
   */
  lemma ReferenceSiteOverwritten(r: ChangeValue, re: Regex, glob: Glob, before: seq<SourceFile>, i: int, d: int, pos: seq<nat>)
    requires r.oldValue.None?
    requires 0 <= i < |before| && before[i].YamlDocuments? && FileMatches(r.fileMatcher, glob, before[i].sourcePath)
    requires 0 <= d < |before[i].documents|
    requires At(before[i].documents[d], pos).Some? && IsParameter(At(before[i].documents[d], pos).value)
    requires AtEntry(LocOf(before[i].documents[d], pos)) && MatchesAt(KeyPathMatcher(r), LocOf(before[i].documents[d], pos))
    ensures At(Run(r, re, glob, before).value[i].documents[d], pos) == Some(Scalar(r.newValue))
  {
    RunAt(r, re, glob, before, i, d, pos);
  }
}
