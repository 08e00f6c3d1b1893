/**
 * Problem Details objects (RFC 7807, "Problem Details for HTTP APIs"): the five members of
 * section 3.1 (type, title, status, detail, instance) plus the extension members of section 3.2.
 */
module ProblemDetails {

  /**
   * A JSON member value. Money values are carried as cents (`Cents(12050)` is 120.50); `Arr` is
   * a JSON array, such as the list of messages a failed request validation carries.
   */
  datatype Value = Str(s: string) | Num(n: int) | Cents(c: int) | Bool(b: bool) | Null | Arr(items: seq<Value>)

  /** A JSON object; a later spread overrides an earlier member of the same name. */
  type Fields = map<string, Value>

  const ProblemTypeBase: string := "https://api.rewards.com/problems/"

  const StandardMembers: set<string> := {"type", "title", "status", "detail", "instance"}

  /**
   * `ProblemDetailsBuilder.build`: the standard members, then `...extensions` spread last.
   * An absent `extensions` argument is the empty map.
   */
  function Build(typ: string, title: string, status: int, detail: Value, instance: string,
                 extensions: Fields): (p: Fields)
    ensures p.Keys == StandardMembers + extensions.Keys
    ensures forall k :: k in extensions ==> p[k] == extensions[k]
    ensures "type" !in extensions ==> p["type"] == Str(ProblemTypeBase + typ)
    ensures "title" !in extensions ==> p["title"] == Str(title)
    ensures "status" !in extensions ==> p["status"] == Num(status)
    ensures "detail" !in extensions ==> p["detail"] == detail
    ensures "instance" !in extensions ==> p["instance"] == Str(instance)
  {
    map["type" := Str(ProblemTypeBase + typ), "title" := Str(title), "status" := Num(status),
        "detail" := detail, "instance" := Str(instance)] + extensions
  }

  /** The five standard member names are pairwise different. */
  lemma StandardNamesDistinct()
    ensures "type" != "title" && "type" != "status" && "type" != "detail" && "type" != "instance"
    ensures "title" != "status" && "title" != "detail" && "title" != "instance"
    ensures "status" != "detail" && "status" != "instance" && "detail" != "instance"
  {
    assert "status"[0] != "detail"[0];
  }

  /** With no extensions the object has exactly the five standard members. */
  lemma BuildWithoutExtensions(typ: string, title: string, status: int, detail: Value, instance: string)
    ensures var p := Build(typ, title, status, detail, instance, map[]);
      p.Keys == StandardMembers
      && p["type"] == Str(ProblemTypeBase + typ) && p["title"] == Str(title)
      && p["status"] == Num(status) && p["detail"] == detail && p["instance"] == Str(instance)
  {
    StandardNamesDistinct();
  }

  /** The type member always starts with the problem-type base URI unless an extension replaces it. */
  lemma BuildTypeHasBase(typ: string, title: string, status: int, detail: Value, instance: string,
                         extensions: Fields)
    requires "type" !in extensions
    ensures var p := Build(typ, title, status, detail, instance, extensions);
      p["type"].Str? && |p["type"].s| >= |ProblemTypeBase|
      && p["type"].s[..|ProblemTypeBase|] == ProblemTypeBase
      && p["type"].s[|ProblemTypeBase|..] == typ
  {
  }
}
