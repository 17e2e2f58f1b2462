# Concourse pipeline recipes, modelled in Dafny

This project models the core of the OpenRewrite recipes for Concourse CI pipeline YAML:

- **ChangeValue** sets every scalar at a key path to a new value. It runs in two passes. The scan
  collects, from every file, the parameter references `((name))` found at the key path. The
  transform then overwrites the value at the key path and at each referenced binding `$.name`.
  A file matcher and an old-value pattern restrict what changes.
- **Parameters** decides whether a scalar is a `((name))` parameter and turns it into the root
  path `$.name`.
- **ChangeResourceVersion** pins every resource of one type to a version, or unpins it. Pinning
  appends or overwrites the `version` entry. Unpinning deletes it.
- **UpdateGitResourceURI** replaces the `source.uri` of every `git` resource. An optional pattern
  must match the whole old URI, and an optional file matcher gates each file.

The YAML tree is a value (`Yaml.Node`: scalar, mapping, sequence). A visitor's cursor is a
`Yaml.Location`: the chain of links from the document root, each with the step taken (a key or an
index) and the node reached. Paths are the JSON-path subset the recipes build (`JsonPath`). That
subset is `$`, then `.name`, `[*]` and `[?(@.field == 'literal')]` segments. `Parse` and `Render`
are proved inverse. A matcher holds its path text, as the Java object does, and a text that does
not parse matches nothing. Regular expressions and file globs are passed in as functions
(`Recipe.Regex`, `Recipe.Glob`).

The modules follow the source files:

- `ChangeValue.dfy`, `Parameters.dfy`, `ChangeResourceVersion.dfy` and `UpdateGitResourceURI.dfy`
  each model the Java class of the same name.
- `Yaml.dfy`, `JsonPath.dfy` and `Recipe.dfy` hold the parts of the framework those classes use.
- `Strings.dfy` and `Wrappers.dfy` are small helpers.

ChangeValue's scan is an imperative loop over the files that appends to a list. It is modelled as
the method `ChangeValue.Scan`, proved equal to the function `ChangeValue.Collect`. The per-entry
loop over the collected matchers is the method `ChangeValue.VisitMappingEntry`. It is proved equal
to the closed form `ChangeValue.Decide`, whatever the matchers' order. The tree edits are pure copies
in the source, and pure functions here.

The model follows the code of `ChangeValue.java`. That code follows a parameter reference one hop
only. It also overwrites a reference that itself sits at the key path, because the key-path
matcher is applied to every scalar. Some tests in the repository expect multi-hop chains, reference
sites left alone and cycle detection. The code does not do these, and neither does the model.

## Model

| member | source | states |
|---|---|---|
| Recipe.ValidatePattern | src/main/java/org/openrewrite/concourse/ChangeValue.java:73-87 | At most one failure. None exactly when no pattern is given or it compiles. A failure carries the property name and message given. |
| ChangeValue.Validate | src/main/java/org/openrewrite/concourse/ChangeValue.java:72-88 | Valid exactly when `oldValue` is absent or compiles. Otherwise the only failure is `oldValue` with its message. |
| ChangeValue.ScanNode | src/main/java/org/openrewrite/concourse/ChangeValue.java:96-105 | The scan visitor `findParametersToChange` on one subtree, in visiting order: an entry's own matcher, then what lies below it, then its later siblings. `ScanNodeComplete` and `ScanNodeSound` state what it collects: exactly the `toJsonPath` matchers of entries at the key path whose value is a parameter scalar. |
| ChangeValue.Collect | src/main/java/org/openrewrite/concourse/ChangeValue.java:94-109 | The scan of every file in order, YAML or not and admitted or not. `CollectComplete` and `CollectSound` state what it holds. `Scan` is the Java loop and is proved to compute it. |
| Parameters.IsParameter | src/main/java/org/openrewrite/concourse/Parameters.java:25-31 | Only a scalar can be a parameter. A parameter's raw text is at least 4 characters long, so both delimiters can be stripped. |
| Parameters.ToJsonPath | src/main/java/org/openrewrite/concourse/Parameters.java:33-40 | Succeeds exactly on parameters. Otherwise the error is `IllegalArgument` with the source's message. A result is `$.` followed by the text with `((` and `))` removed: the text is `((` + name + `))`. |
| Parameters.ToJsonPathOfName | src/main/java/org/openrewrite/concourse/Parameters.java:38-39 | For every name, `((name))` becomes `$.name`. |
| Parameters.DottedParameterPath | src/main/java/org/openrewrite/concourse/Parameters.java:39 | `((a.b.c))` yields a path that compiles to one field descent per dotted name. |
| JsonPath.ParseIffRender | src/main/java/org/openrewrite/concourse/Parameters.java:39 | A text parses to a query exactly when the query is well formed and the text is that query rendered. |
| JsonPath.DottedPathCompiles | src/main/java/org/openrewrite/concourse/Parameters.java:39 | `$.a.b.c` compiles to the field descents `a`, `b`, `c`. |
| JsonPath.FieldsMatch | src/main/java/org/openrewrite/concourse/ChangeValue.java:136 | A query of field descents matches exactly the locations that take those keys from the root. |
| ChangeValue.Scan | src/main/java/org/openrewrite/concourse/ChangeValue.java:94-109 | The loop over all files collects exactly `Collect(keyPath, files)`. It reads the files and changes none. |
| ChangeValue.CollectComplete | src/main/java/org/openrewrite/concourse/ChangeValue.java:98-102 | Every entry at the key path whose value is a parameter scalar, in any document of any file, contributes its `toJsonPath` matcher. |
| ChangeValue.CollectSound | src/main/java/org/openrewrite/concourse/ChangeValue.java:98-102 | Every collected matcher comes from such an entry. |
| ChangeValue.ScanNodeComplete | src/main/java/org/openrewrite/concourse/ChangeValue.java:98-103 | Within one subtree the pre-order scan reaches every qualifying entry, below already-collected entries included. |
| ChangeValue.ScanNodeSound | src/main/java/org/openrewrite/concourse/ChangeValue.java:98-103 | Within one subtree each collected matcher has a qualifying entry at some position. |
| ChangeValue.DocumentsComplete | src/main/java/org/openrewrite/concourse/ChangeValue.java:107-109 | The scan of a file's documents collects from every document. |
| ChangeValue.DocumentsSound | src/main/java/org/openrewrite/concourse/ChangeValue.java:107-109 | What the scan of a file's documents collects comes from one of them. |
| ChangeValue.MaybeReplaceValue | src/main/java/org/openrewrite/concourse/ChangeValue.java:135-145 | The key never changes. An entry changes only when the matcher matches, the value is a scalar and the old-value test accepts its text, and then the value is exactly `newValue`. |
| ChangeValue.Decide | src/main/java/org/openrewrite/concourse/ChangeValue.java:126-145 | The transform's outcome for one entry scalar. The text is either kept or becomes `newValue`. It changes only when the old-value test accepts it and the key path or a collected matcher matches the location. `VisitMappingEntry` proves the Java loop reaches exactly this outcome, and `RunAt` states it at every position of a file. |
| ChangeValue.VisitMappingEntry | src/main/java/org/openrewrite/concourse/ChangeValue.java:126-133 | After the loop over the collected matchers and the key-path matcher, a scalar entry holds `newValue` exactly when some matcher matches and the old-value test accepts it. A non-scalar entry is unchanged. The matchers' order does not matter. |
| ChangeValue.TransformFile | src/main/java/org/openrewrite/concourse/ChangeValue.java:111-150 | Keeps the source path and the number of documents. A non-YAML file, or one the file matcher rejects, comes back unchanged. |
| ChangeValue.Run | src/main/java/org/openrewrite/concourse/ChangeValue.java:91-151 | Fails exactly when validation fails. Otherwise the output has one file per input, in order, with the same paths. Non-YAML files and files the glob rejects are unchanged. |
| ChangeValue.Visit | src/main/java/org/openrewrite/concourse/ChangeValue.java:91-151 | Computing `Pattern.compile`, then the scan loop, then the per-file transform gives exactly `Run`. |
| ChangeValue.RunAt | src/main/java/org/openrewrite/concourse/ChangeValue.java:124-146 | In an admitted YAML file every node keeps its position, kind and keys. An entry's scalar becomes `newValue` exactly when the key path or a collected matcher matches its location and the old-value test accepts its text. Every other scalar is kept. |
| ChangeValue.RunUntouched | src/main/java/org/openrewrite/concourse/ChangeValue.java:136 | A file with no location matched by any matcher is returned unchanged. |
| ChangeValue.OneHopRedirect | src/main/java/org/openrewrite/concourse/ChangeValue.java:99-101 | A `((a.b.c))` reference at the key path in one file makes the run overwrite the scalar at `$.a.b.c` in any admitted file, when the old-value test accepts it. |
| ChangeValue.ReferenceSiteOverwritten | src/main/java/org/openrewrite/concourse/ChangeValue.java:131 | With no old-value pattern, a parameter reference that sits at the key path is itself overwritten with `newValue`. |
| Yaml.RewriteAt | src/main/java/org/openrewrite/concourse/ChangeValue.java:124-146 | The shared value-rewriting traversal keeps every position, kind and key. The scalar at a position changes only if it is an entry's value, and then to `f(location, text)`. |
| Yaml.RewriteScalars | src/main/java/org/openrewrite/concourse/ChangeValue.java:124-146 | The traversal both value-rewriting visitors share. Every entry scalar gets `f(location, text)`, where the location is built from the original nodes. The result has the same kind, child count and keys as the input; `RewriteAt` states this at every position. |
| Yaml.RewriteIdentity | src/main/java/org/openrewrite/concourse/ChangeValue.java:136 | If the rewrite keeps the text of every entry scalar, the tree is unchanged. |
| ChangeResourceVersion.MatchersCompile | src/main/java/org/openrewrite/concourse/ChangeResourceVersion.java:64-65 | For a type without a quote, the two built path texts compile to `resources` + a `type` filter, and to that followed by `version`. |
| ChangeResourceVersion.ResourceMatches | src/main/java/org/openrewrite/concourse/ChangeResourceVersion.java:64-69 | The resource matcher accepts exactly a child of the root's `resources`, an item or an entry value, that is a mapping whose `type` is the scalar resource type. |
| ChangeResourceVersion.VersionMatches | src/main/java/org/openrewrite/concourse/ChangeResourceVersion.java:65 | The version matcher accepts exactly the `version` entry of such a resource. |
| ChangeResourceVersion.VisitEntry | src/main/java/org/openrewrite/concourse/ChangeResourceVersion.java:87-99 | An entry is deleted exactly when the version matcher matches and no version is given. A kept entry keeps its key. |
| ChangeResourceVersion.VisitNode | src/main/java/org/openrewrite/concourse/ChangeResourceVersion.java:68-99 | The visitor keeps every node's kind and every sequence's length, and leaves scalars alone. |
| ChangeResourceVersion.Run | src/main/java/org/openrewrite/concourse/ChangeResourceVersion.java:63-101 | One output per input, in order, with the same paths. Non-YAML files are unchanged. |
| ChangeResourceVersion.VisitFile | src/main/java/org/openrewrite/concourse/ChangeResourceVersion.java:63-101 | Keeps the source path, whether the file is YAML, and the number of documents. A non-YAML file comes back unchanged. `RunAt` states each YAML document's nodes at most two links deep. |
| ChangeResourceVersion.PinAppends | src/main/java/org/openrewrite/concourse/ChangeResourceVersion.java:69-81 | With a version given, a matched resource without a `version` key gets exactly one entry `version: v`, appended after the existing entries, which keep their order. |
| ChangeResourceVersion.PinOverwrites | src/main/java/org/openrewrite/concourse/ChangeResourceVersion.java:88-98 | With a version given, a matched resource with a `version` key keeps its length and order. A scalar version becomes `v`, and an equal one stays as it was. A non-scalar version and every other entry are kept. |
| ChangeResourceVersion.Unpin | src/main/java/org/openrewrite/concourse/ChangeResourceVersion.java:88-91 | With no version, every `version` entry of a matched resource is deleted, nothing is added, and the other entries keep their order. |
| ChangeResourceVersion.WithoutKey | src/main/java/org/openrewrite/concourse/ChangeResourceVersion.java:89-91 | The entries left after deleting key `k` contain no `k` and are exactly the others. |
| ChangeResourceVersion.Untouched | src/main/java/org/openrewrite/concourse/ChangeResourceVersion.java:64-99 | The visitor returns any node whose own location is three or more links deep as it was, so nothing inside the value of a resource's entry changes. (A `version` scalar three links deep can still be replaced, but by the visit of its entry one level up.) The same holds for a node whose location is two links deep and is not a matched resource. |
| ChangeResourceVersion.ShallowShape | src/main/java/org/openrewrite/concourse/ChangeResourceVersion.java:68-84 | Less than two links deep the visitor neither inserts nor deletes. A node keeps its kind, its number of children and its keys. |
| ChangeResourceVersion.VisitAt | src/main/java/org/openrewrite/concourse/ChangeResourceVersion.java:83-98 | The node at a position at most two links deep is still there, and it is the visitor's result on the node that was there. Less than two links deep it also keeps its kind, number of children and keys, so nothing is inserted or deleted above the resources. |
| ChangeResourceVersion.RunAt | src/main/java/org/openrewrite/concourse/ChangeResourceVersion.java:63-101 | In a YAML file, each node at most two links deep comes out as the visitor's result on that node at its own location. Less than two links deep it keeps its kind, number of children and keys. |
| ChangeResourceVersion.OtherTypeUntouched | src/main/java/org/openrewrite/concourse/ChangeResourceVersion.java:64-65 | A resource whose `type` is not the resource type comes out unchanged. |
| ChangeResourceVersion.PinVersionExample | src/test/java/org/openrewrite/concourse/ChangeResourceVersionTest.java:28-58 | Pinning three `git` resources at 1.0, 2.0 and none to 2.0 gives all three `version: 2.0`. |
| ChangeResourceVersion.UnpinVersionExample | src/test/java/org/openrewrite/concourse/ChangeResourceVersionTest.java:61-88 | Unpinning the same resources removes both versions and adds none. |
| UpdateGitResourceURI.Validate | src/main/java/org/openrewrite/concourse/UpdateGitResourceURI.java:72-87 | Valid exactly when `oldURIPattern` is absent or compiles. Otherwise there is exactly one failure, on `oldURIPattern`. |
| UpdateGitResourceURI.Applicable | src/main/java/org/openrewrite/concourse/UpdateGitResourceURI.java:64-69 | The single-source applicability test. With no file matcher every file is admitted; otherwise a file is admitted exactly when the glob accepts its source path. `VisitFile` and `Run` state that a file it rejects comes back unchanged. |
| UpdateGitResourceURI.UriRewrite | src/main/java/org/openrewrite/concourse/UpdateGitResourceURI.java:97-105 | The visitor's decision for an entry scalar. The text becomes `newURI` exactly when the location matches the git `source.uri` path and the pattern, if any, matches all of the text. `RunAt` states this at every position, and `NullPatternReplacesEveryCandidate` states the no-pattern case. |
| UpdateGitResourceURI.GitUriPathCompiles | src/main/java/org/openrewrite/concourse/UpdateGitResourceURI.java:95 | The literal path compiles to `resources`, a `type == 'git'` filter, `source` and `uri`. |
| UpdateGitResourceURI.GitUriMatches | src/main/java/org/openrewrite/concourse/UpdateGitResourceURI.java:95-99 | The matcher accepts exactly the `source.uri` of a child of `resources`, an item or an entry value, whose `type` is the scalar `git`. |
| UpdateGitResourceURI.VisitFile | src/main/java/org/openrewrite/concourse/UpdateGitResourceURI.java:64-105 | Keeps the path and the number of documents. A non-YAML file, or one the file matcher rejects, is unchanged. |
| UpdateGitResourceURI.Run | src/main/java/org/openrewrite/concourse/UpdateGitResourceURI.java:64-105 | Fails exactly when validation fails. Otherwise one output per input, in order. Non-YAML and non-applicable files are unchanged. |
| UpdateGitResourceURI.RunAt | src/main/java/org/openrewrite/concourse/UpdateGitResourceURI.java:97-105 | In an applicable file every node keeps its position, kind and keys. A scalar becomes `newURI` exactly when it is a git resource's `source.uri` and the pattern, if any, matches all of it. Every other scalar is kept. |
| UpdateGitResourceURI.NonGitUntouched | src/main/java/org/openrewrite/concourse/UpdateGitResourceURI.java:95-99 | The `source.uri` of a resource whose type is not `git` never changes. |
| UpdateGitResourceURI.NullPatternReplacesEveryCandidate | src/main/java/org/openrewrite/concourse/UpdateGitResourceURI.java:99-101 | With no pattern, every candidate, a `((x))` reference included, becomes exactly `newURI`. |

## Left out

- `JsonPathMatcher` itself lives in rewrite-yaml and is not part of this model. Paths are the subset
  above: root-anchored, with field, wildcard and equality-filter segments. A path text outside
  that subset matches nothing here. The quote-free resource type required by the
  ChangeResourceVersion lemmas comes from this: a quote would end the filter literal early.
- A filter segment `[?(@.field == 'lit')]` applies to any child of the node before it, whether that
  node is a sequence or a mapping. The resource and git-URI matchers therefore also accept the
  value of a key under a `resources` mapping, not only an item of a `resources` sequence. How
  rewrite-yaml evaluates a filter on a mapping is not part of this model.
- The path parser accepts a filter only with exactly one space on each side of `==` and single
  quotes around the literal, as the recipes write it. A key path written as `$.r[?(@.t=='g')]`,
  with double quotes, or with other spacing does not parse, and so matches nothing here.
- Regular expressions (`java.util.regex.Pattern`, `PatternSyntaxException`) and file globs
  (`PathMatcher`, `HasSourcePath`) are taken as given functions. Tests that depend on a particular
  pattern, such as `.*@.*` accepting only the `git@` URI, are therefore not restated.
- `YamlParser` and `autoFormat` in ChangeResourceVersion: the appended entry is built directly as
  `version: <v>` with a plain scalar. Whitespace, comments, scalar styles and markers are not modelled.
- Parsing YAML text and printing it back are not modelled; the recipes work on the parsed tree.
- Multi-hop redirection, preserving reference sites and cycle detection: some ChangeValue tests
  describe them, but the code does not implement them. The cycle test is disabled.
- `FindResource`, `search/FindPinnedResource` (search markers only) and `UpdateGitResourceUri`
  (a one-line delegation to ChangeValue with the git `source.uri` path) are not part of this model.
- Recipe metadata (display names, descriptions, effort estimates), the Gradle build and the test
  harness.
- UpdateGitResourceURI.Run: with an uncompilable pattern, the run fails up front, before any file is
  visited. The Java visitor compiles the pattern afresh at each candidate and so throws only when
  it first meets one. A run over files with no candidate would succeed in Java.
