/** Tool names: the namespace rule and the name sent over the wire
    (src/limpiador/tools/base.py). */
module Naming {

  const NAMESPACES: seq<string> := ["git", "github", "fs", "ast", "test", "ci"]

  const SEARCH_TOOLS := "search_tools"
  const LOAD_TOOL := "load_tool"
  const PLAN_ADD := "plan_add"
  const PLAN_RESOLVE := "plan_resolve"
  const FINISH := "finish"
  const CORE_TOOL_NAMES: seq<string> := [SEARCH_TOOLS, LOAD_TOOL, PLAN_ADD, PLAN_RESOLVE, FINISH]

  /** `name.split(".")`. */
  function Parts(name: string): (r: seq<string>)
    ensures |r| >= 1
  {
    if name == "" then [""]
    else
      var r := Parts(name[1..]);
      if name[0] == '.' then [""] + r else [[name[0]] + r[0]] + r[1..]
  }

  /** `_require_namespaced_name` accepts the name. */
  predicate ValidName(name: string) {
    var p := Parts(name);
    |p| == 2 && p[0] != "" && p[1] != "" && p[0] in NAMESPACES
  }

  /** `name.replace(".", "_")`. */
  function WireName(name: string): (w: string)
    ensures |w| == |name|
  {
    seq(|name|, i requires 0 <= i < |name| => if name[i] == '.' then '_' else name[i])
  }

  ghost predicate Free(s: string, c: char) {
    forall i | 0 <= i < |s| :: s[i] != c
  }

  lemma {:induction false} OnePart(name: string)
    requires |Parts(name)| == 1
    ensures Parts(name) == [name] && Free(name, '.')
  {
    if name != "" {
      OnePart(name[1..]);
      assert name == [name[0]] + name[1..];
    }
  }

  lemma {:induction false} TwoParts(name: string)
    requires |Parts(name)| == 2
    ensures var p := Parts(name); name == p[0] + "." + p[1] && Free(p[0], '.') && Free(p[1], '.')
  {
    var p := Parts(name);
    assert name == [name[0]] + name[1..];
    if name[0] == '.' {
      OnePart(name[1..]);
    } else {
      TwoParts(name[1..]);
      var q := Parts(name[1..]);
      assert p[0] == [name[0]] + q[0] && p[1] == q[1];
      assert [name[0]] + (q[0] + "." + q[1]) == p[0] + "." + p[1];
    }
  }

  lemma {:induction false} PartsOfOne(name: string)
    requires Free(name, '.')
    ensures Parts(name) == [name]
    decreases |name|
  {
    if name != "" {
      PartsOfOne(name[1..]);
      assert name == [name[0]] + name[1..];
    }
  }

  lemma {:induction false} PartsOfTwo(a: string, b: string)
    requires Free(a, '.') && Free(b, '.')
    ensures Parts(a + "." + b) == [a, b]
    decreases |a|
  {
    var name := a + "." + b;
    if a == "" {
      PartsOfOne(b);
      assert name[1..] == b;
    } else {
      PartsOfTwo(a[1..], b);
      assert name[1..] == a[1..] + "." + b;
      assert a == [a[0]] + a[1..];
    }
  }

  /** The name is one of the six namespaces, a dot and a tool name without one. */
  predicate Namespaced(name: string, ns: string, tool: string) {
    && (ns == "git" || ns == "github" || ns == "fs" || ns == "ast" || ns == "test" || ns == "ci")
    && tool != "" && '.' !in tool && name == ns + "." + tool
  }

  lemma ValidNameIs(name: string)
    ensures ValidName(name) <==> exists ns, tool :: Namespaced(name, ns, tool)
  {
    if ValidName(name) {
      TwoParts(name);
      var p := Parts(name);
      assert Namespaced(name, p[0], p[1]);
    }
    if ns, tool :| Namespaced(name, ns, tool) {
      NamespaceHasNoDot(ns);
      PartsOfTwo(ns, tool);
    }
  }

  lemma NamespaceHasNoDot(ns: string)
    requires ns in NAMESPACES
    ensures Free(ns, '.')
  {
  }

  /** On the wire the dot is an underscore and nothing else changes. */
  lemma WireNameIs(name: string, ns: string, tool: string)
    requires Namespaced(name, ns, tool)
    ensures WireName(name) == ns + "_" + tool
  {
    hide Parts;
    NamespaceHasNoDot(ns);
  }

  /** No namespace contains an underscore, so the first underscore of a wire name is
      where the dot was. */
  lemma NamespacesPlain(ns: string)
    requires ns in NAMESPACES
    ensures Free(ns, '_')
  {
  }

  lemma WireShape(name: string)
    requires ValidName(name)
    ensures var p, w := Parts(name), WireName(name);
      && name == p[0] + "." + p[1] && Free(p[0], '.') && Free(p[1], '.') && Free(p[0], '_')
      && |w| > |p[0]| && w[..|p[0]|] == p[0] && w[|p[0]|] == '_' && w[|p[0]| + 1..] == p[1]
  {
    TwoParts(name);
    NamespacesPlain(Parts(name)[0]);
  }

  /** The wire name of a valid name determines the name: underscores in the tool part
      cannot confuse two tools. */
  lemma WireNameInjective(a: string, b: string)
    requires ValidName(a) && ValidName(b) && WireName(a) == WireName(b)
    ensures a == b
  {
    WireShape(a);
    WireShape(b);
    FirstUnderscore(a);
    FirstUnderscore(b);
  }

  lemma FirstUnderscore(name: string)
    requires ValidName(name)
    ensures var n, w := |Parts(name)[0]|, WireName(name);
      n < |w| && w[n] == '_' && forall i | 0 <= i < n :: w[i] != '_'
  {
    WireShape(name);
    var n, w := |Parts(name)[0]|, WireName(name);
    assert forall i | 0 <= i < n :: w[..n][i] == w[i];
  }

  /** No tool can take the wire name of a core verb. */
  lemma WireNameNeverCore(name: string)
    requires ValidName(name)
    ensures WireName(name) !in CORE_TOOL_NAMES
  {
    WireShape(name);
    var ns, w := Parts(name)[0], WireName(name);
    if w in CORE_TOOL_NAMES {
      var core :| core in CORE_TOOL_NAMES && w == core;
      CoreVerbHasNoNamespace(core, ns);
    }
  }

  lemma CoreVerbHasNoNamespace(core: string, ns: string)
    requires core in CORE_TOOL_NAMES && ns in NAMESPACES
    ensures !(|core| > |ns| && core[..|ns|] == ns && core[|ns|] == '_')
  {
    NotPrefix(SEARCH_TOOLS, ns);
    NotPrefix(LOAD_TOOL, ns);
    NotPrefix(PLAN_ADD, ns);
    NotPrefix(PLAN_RESOLVE, ns);
    NotPrefix(FINISH, ns);
  }

  lemma NotPrefix(core: string, ns: string)
    requires core in CORE_TOOL_NAMES && ns in NAMESPACES
    ensures |core| > |ns| && core[..|ns|] == ns ==> core[|ns|] != '_'
  {
    if |core| > |ns| && core[..|ns|] == ns {
      assert core[0] == ns[0] && core[1] == ns[1];
    }
  }
}
