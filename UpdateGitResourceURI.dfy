/**
  The `UpdateGitResourceURI` recipe: replace the `source.uri` of every `git` resource, in one pass
  and with no parameter indirection (a `((name))` there is just a scalar like any other).
 */
module UpdateGitResourceURI {
  import opened Wrappers
  import opened Strings
  import opened Yaml
  import opened JsonPath
  import opened Recipe

  datatype UpdateGitResourceURI = UpdateGitResourceURI(
    oldURIPattern: Option<string>,
    newURI: string,
    fileMatcher: Option<string>)

  datatype Error = PatternSyntax(pattern: string)

  const OldURIMessage := "oldURIPattern must be a compilable regular expression"

  const GitUriPath := "$.resources[?(@.type == 'git')].source.uri"

  const GitUriQuery: Query := [Field("resources"), Filter("type", "git"), Field("source"), Field("uri")]

  lemma GitUriRenderedBySegment()
    ensures Render(GitUriQuery) == "$" + RenderSegment(GitUriQuery[0]) + RenderSegment(GitUriQuery[1])
      + RenderSegment(GitUriQuery[2]) + RenderSegment(GitUriQuery[3])
  {
    var a, b, c, d := GitUriQuery[0], GitUriQuery[1], GitUriQuery[2], GitUriQuery[3];
    assert GitUriQuery == [a] + [b] + [c] + [d];
    RenderAppend([a] + [b] + [c], [d]);
    RenderAppend([a] + [b], [c]);
    RenderAppend([a], [b]);
    RenderSingle(a);
    RenderSingle(b);
    RenderSingle(c);
    RenderSingle(d);
  }

  lemma GitUriSegmentTexts()
    ensures RenderSegment(GitUriQuery[0]) == ".resources"
    ensures RenderSegment(GitUriQuery[1]) == "[?(@.type == 'git')]"
    ensures RenderSegment(GitUriQuery[2]) == ".source"
    ensures RenderSegment(GitUriQuery[3]) == ".uri"
  {
  }

  lemma GitUriText()
    ensures "$" + ".resources" + "[?(@.type == 'git')]" + ".source" + ".uri" == GitUriPath
  {
    assert "$" + ".resources" == "$.resources";
    assert "$.resources" + "[?(@.type == 'git')]" == "$.resources[?(@.type == 'git')]";
    assert "$.resources[?(@.type == 'git')]" + ".source" == "$.resources[?(@.type == 'git')].source";
  }

  /** The literal path is the candidate query written out. */
  lemma GitUriRendered()
    ensures Render(GitUriQuery) == GitUriPath
  {
    GitUriRenderedBySegment();
    GitUriSegmentTexts();
    GitUriText();
  }

  lemma GitUriWellFormed()
    ensures WellFormed(GitUriQuery)
  {
    assert IsName("resources") && IsName("type") && IsName("source") && IsName("uri");
    assert IsLiteral("git");
  }

  lemma GitUriPathCompiles()
    ensures Compile(JsonPathMatcher(GitUriPath)) == Some(GitUriQuery)
  {
    GitUriRendered();
    GitUriWellFormed();
    ParseIffRender(GitUriPath, GitUriQuery);
  }

  /** The candidates: the `uri` under `source` of a resource whose `type` is the scalar `git`. */
  predicate GitUriLocation(loc: Location) {
    && |loc| == 4
    && loc[0].step == Key("resources")
    && loc[1].node.Mapping? && Lookup(loc[1].node.entries, "type") == Some(Scalar("git"))
    && loc[2].step == Key("source")
    && loc[3].step == Key("uri")
  }

  lemma GitUriQueryMatches(loc: Location)
    ensures Matches(GitUriQuery, loc) <==> GitUriLocation(loc)
  {
    if GitUriLocation(loc) {
      forall i | 0 <= i < 4 ensures SegmentMatches(GitUriQuery[i], loc[i]) {
      }
    }
    if Matches(GitUriQuery, loc) {
      assert SegmentMatches(GitUriQuery[0], loc[0]);
      assert SegmentMatches(GitUriQuery[1], loc[1]);
      assert SegmentMatches(GitUriQuery[2], loc[2]);
      assert SegmentMatches(GitUriQuery[3], loc[3]);
    }
  }

  /** The matcher built from the literal path accepts exactly the candidate locations. */
  lemma GitUriMatches(loc: Location)
    ensures MatchesAt(JsonPathMatcher(GitUriPath), loc) <==> GitUriLocation(loc)
  {
    GitUriPathCompiles();
    GitUriQueryMatches(loc);
  }

  /** Fails, with one failure on `oldURIPattern`, exactly when a pattern is given and does not compile. */
  function Validate(r: UpdateGitResourceURI, re: Regex): (v: seq<Failure>)
    ensures v == [] <==> r.oldURIPattern.None? || re.compiles(r.oldURIPattern.value)
    ensures v != [] ==> |v| == 1 && v[0].property == "oldURIPattern"
  {
    ValidatePattern("oldURIPattern", OldURIMessage, r.oldURIPattern, re)
  }

  /** The single-source applicability test: a file matcher admits files by source path; none admits all. */
  predicate Applicable(r: UpdateGitResourceURI, glob: Glob, file: SourceFile) {
    FileMatches(r.fileMatcher, glob, file.sourcePath)
  }

  /** The visitor's decision for an entry scalar: a candidate accepted by the pattern gets the new URI. */
  function UriRewrite(r: UpdateGitResourceURI, re: Regex): (Location, string) -> string {
    (loc, text) =>
      if MatchesAt(JsonPathMatcher(GitUriPath), loc) && OldAccepts(r.oldURIPattern, re, text)
      then r.newURI
      else text
  }

  function VisitFile(r: UpdateGitResourceURI, re: Regex, glob: Glob, file: SourceFile): (out: SourceFile)
    ensures out.sourcePath == file.sourcePath && out.YamlDocuments? == file.YamlDocuments?
    ensures file.YamlDocuments? ==> |out.documents| == |file.documents|
    ensures file.OtherSource? || !Applicable(r, glob, file) ==> out == file
  {
    if file.OtherSource? || !Applicable(r, glob, file) then file
    else
      YamlDocuments(file.sourcePath,
        seq(|file.documents|, d requires 0 <= d < |file.documents| =>
          RewriteScalars(file.documents[d], [], UriRewrite(r, re))))
  }

  function Run(r: UpdateGitResourceURI, re: Regex, glob: Glob, before: seq<SourceFile>): (after: Result<seq<SourceFile>, Error>)
    ensures after.Err? <==> Validate(r, re) != []
    ensures after.Ok? ==> |after.value| == |before|
    ensures after.Ok? ==> forall i :: 0 <= i < |before| ==>
      && after.value[i].sourcePath == before[i].sourcePath
      && (before[i].OtherSource? ==> after.value[i] == before[i])
      && (!Applicable(r, glob, before[i]) ==> after.value[i] == before[i])
  {
    if r.oldURIPattern.Some? && !re.compiles(r.oldURIPattern.value) then Err(PatternSyntax(r.oldURIPattern.value))
    else Ok(seq(|before|, i requires 0 <= i < |before| => VisitFile(r, re, glob, before[i])))
  }

  /**
    Position by position, in an applicable YAML file: every node is still there with the same shape
    and keys; a scalar becomes the new URI exactly when it is a git resource's `source.uri` and the
    pattern (if any) matches all of it; every other scalar is kept.
   */
  lemma RunAt(r: UpdateGitResourceURI, re: Regex, glob: Glob, before: seq<SourceFile>, i: int, d: int, pos: seq<nat>)
    requires Validate(r, re) == []
    requires 0 <= i < |before| && before[i].YamlDocuments? && Applicable(r, glob, before[i])
    requires 0 <= d < |before[i].documents|
    ensures var doc := before[i].documents[d];
      var out := Run(r, re, glob, before).value[i].documents[d];
      && (At(out, pos).Some? <==> At(doc, pos).Some?)
      && (At(doc, pos).Some? ==> SameShape(At(doc, pos).value, At(out, pos).value))
      && (At(doc, pos).Some? && At(doc, pos).value.Scalar? ==>
            var s := At(doc, pos).value.text;
            At(out, pos) == Some(Scalar(
              if GitUriLocation(LocOf(doc, pos)) && OldAccepts(r.oldURIPattern, re, s) then r.newURI else s)))
  {
    var doc := before[i].documents[d];
    RewriteAt(doc, [], UriRewrite(r, re), pos);
    if At(doc, pos).Some? {
      assert [] + LocOf(doc, pos) == LocOf(doc, pos);
      GitUriMatches(LocOf(doc, pos));
    }
  }

  /** The URI of a resource whose type is not `git` never changes. */
  lemma NonGitUntouched(r: UpdateGitResourceURI, re: Regex, glob: Glob, before: seq<SourceFile>, i: int, d: int, pos: seq<nat>)
    requires Validate(r, re) == []
    requires 0 <= i < |before| && before[i].YamlDocuments? && 0 <= d < |before[i].documents|
    requires At(before[i].documents[d], pos).Some? && At(before[i].documents[d], pos).value.Scalar?
    requires |pos| == 4 && LocOf(before[i].documents[d], pos)[1].node.Mapping?
    requires Lookup(LocOf(before[i].documents[d], pos)[1].node.entries, "type") != Some(Scalar("git"))
    ensures At(Run(r, re, glob, before).value[i].documents[d], pos) == At(before[i].documents[d], pos)
  {
    if Applicable(r, glob, before[i]) {
      RunAt(r, re, glob, before, i, d, pos);
    }
  }

  /**
    With no pattern every candidate gets exactly the new URI, a `((name))` reference included: there
    is no parameter indirection here.
   */
  lemma NullPatternReplacesEveryCandidate(r: UpdateGitResourceURI, re: Regex, glob: Glob, before: seq<SourceFile>, i: int, d: int, pos: seq<nat>)
    requires r.oldURIPattern.None?
    requires 0 <= i < |before| && before[i].YamlDocuments? && Applicable(r, glob, before[i])
    requires 0 <= d < |before[i].documents|
    requires At(before[i].documents[d], pos).Some? && At(before[i].documents[d], pos).value.Scalar?
    requires GitUriLocation(LocOf(before[i].documents[d], pos))
    ensures At(Run(r, re, glob, before).value[i].documents[d], pos) == Some(Scalar(r.newURI))
  {
    RunAt(r, re, glob, before, i, d, pos);
  }
}
