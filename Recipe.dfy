/**
  The parts of the OpenRewrite recipe framework the Concourse recipes lean on: the source files a
  run receives, option validation, and the two things taken as given, regular expressions
  (`java.util.regex.Pattern`) and file globs (`java.nio.file.PathMatcher`), passed in as functions.
 */
module Recipe {
  import opened Wrappers
  import opened Yaml

  /** A parsed YAML file holds one root node per `---` document; any other file is opaque. */
  datatype SourceFile =
    | YamlDocuments(sourcePath: string, documents: seq<Node>)
    | OtherSource(sourcePath: string)

  /** One failed option check of a `Validated`. */
  datatype Failure = Failure(property: string, message: string)

  /** `compiles(p)`: `Pattern.compile(p)` succeeds; `fullMatch(p, s)`: `p` matches all of `s`. */
  datatype Regex = Regex(compiles: string -> bool, fullMatch: (string, string) -> bool)

  /** `glob(pattern, path)`: the path matcher for `glob:pattern` accepts `path`. */
  type Glob = (string, string) -> bool

  /** `Validated.test(property, message, pattern, ...)` for an optional regular expression. */
  function ValidatePattern(property: string, message: string, pattern: Option<string>, re: Regex): (r: seq<Failure>)
    ensures |r| <= 1
    ensures r == [] <==> pattern.None? || re.compiles(pattern.value)
    ensures r != [] ==> r[0] == Failure(property, message)
  {
    if pattern.Some? && !re.compiles(pattern.value) then [Failure(property, message)] else []
  }

  /** No old-value pattern, or one that matches the whole current text. */
  predicate OldAccepts(pattern: Option<string>, re: Regex, text: string) {
    pattern.None? || re.fullMatch(pattern.value, text)
  }

  /** No file matcher, or one whose glob accepts the file's source path. */
  predicate FileMatches(fileMatcher: Option<string>, glob: Glob, sourcePath: string) {
    fileMatcher.None? || glob(fileMatcher.value, sourcePath)
  }

  /**
    `ListUtils.map` with a function that may return `null`: the results that are present, in order.
    When nothing is dropped it is the plain element-wise map.
   */
  function Somes<T>(xs: seq<Option<T>>): (r: seq<T>)
    ensures |r| <= |xs|
    ensures (forall i :: 0 <= i < |xs| ==> xs[i].Some?) ==>
      |r| == |xs| && forall i :: 0 <= i < |r| ==> r[i] == xs[i].value
  {
    if xs == [] then []
    else
      var rest := Somes(xs[1..]);
      assert forall i :: 1 <= i < |xs| ==> xs[i] == xs[1..][i - 1];
      (if xs[0].Some? then [xs[0].value] else []) + rest
  }
}
