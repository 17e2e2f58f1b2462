/**
  Concourse `((name))` parameters: a scalar whose raw text starts with `((` and ends with `))`
  stands for the value bound to `name`, which `ToJsonPath` turns into the root path `$.name`.
 */
module Parameters {
  import opened Wrappers
  import opened Strings
  import opened Yaml
  import opened JsonPath

  datatype Error = IllegalArgument(message: string)

  /**
    Mappings and sequences are never parameters; the scalar text is taken as is, untrimmed. The two
    delimiters cannot overlap, so a parameter's text is long enough to strip both.
   */
  predicate IsParameter(n: Node)
    ensures IsParameter(n) ==> n.Scalar? && |n.text| >= 4
  {
    if n.Scalar? && StartsWith(n.text, "((") && EndsWith(n.text, "))") then
      var t := n.text;
      assert t[..2][0] == t[0] == '(' && t[..2][1] == t[1] == '(';
      assert t[|t| - 2..][0] == t[|t| - 2] == ')' && t[|t| - 2..][1] == t[|t| - 1] == ')';
      true
    else false
  }

  function ToJsonPath(n: Node): (r: Result<string, Error>)
    ensures r.Ok? <==> IsParameter(n)
    ensures r.Err? ==> r.error == IllegalArgument("Yaml element is not a Concourse parameter")
    ensures r.Ok? ==> StartsWith(r.value, "$.") && n.text == "((" + r.value[2..] + "))"
  {
    if !IsParameter(n) then Err(IllegalArgument("Yaml element is not a Concourse parameter"))
    else
      var t := n.text;
      var name := t[2..|t| - 2];
      assert t == t[..2] + name + t[|t| - 2..];
      Ok("$." + name)
  }

  /** `((name))` becomes `$.name`, whatever the name. */
  lemma ToJsonPathOfName(name: string)
    ensures ToJsonPath(Scalar("((" + name + "))")) == Ok("$." + name)
  {
    var t := "((" + name + "))";
    assert t[..2] == "((" && t[|t| - 2..] == "))";
    assert t[2..|t| - 2] == name;
  }

  /**
    The matcher a parameter's path compiles to: `((a.b.c))` names the location reached from the root
    by the keys `a`, `b`, `c`.
   */
  lemma DottedParameterPath(names: seq<string>)
    requires names != [] && forall i :: 0 <= i < |names| ==> IsName(names[i])
    ensures var p := ToJsonPath(Scalar("((" + Join(names, '.') + "))"));
      p.Ok? && Compile(JsonPathMatcher(p.value)) == Some(Fields(names))
  {
    ToJsonPathOfName(Join(names, '.'));
    DottedPathCompiles(names);
  }
}
