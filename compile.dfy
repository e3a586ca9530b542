/** The template compiler: a pre-order walk over the children of the root that
    binds every interpolation and directive to a watcher and every `@event`
    attribute to a listener. */
module Compile {
  import opened Values
  import opened Dom
  import opened Template
  import opened Traversal
  import opened Reactivity
  import opened Collections

  /** What compiling changes: the watchers, the deps, the page, and the warnings printed. */
  datatype Output = Output(
    watchers: seq<Watcher>,
    deps: map<Prop, seq<nat>>,
    dom: map<nat, NodeState>,
    warnings: seq<string>)

  // ---------------------------------------------------------------------------
  // The effect of compiling, node by node

  /** `update(node, exp, dir)`: run the updater once with `vm[exp]`, then create
      one watcher on `exp` for it. */
  function Bound(out: Output, node: nat, exp: string, dir: Dir, s: Store): Output {
    Output(
      out.watchers + [Watcher(exp, node, dir)],
      Subscribed(out.deps, s, exp, |out.watchers|),
      if node in out.dom then out.dom[node := Updated(out.dom[node], dir, Lookup(s, exp), exp)] else out.dom,
      out.warnings)
  }

  /** `bindEvent(node, event, handler)`: nothing for an empty event type. */
  function Listened(dom: map<nat, NodeState>, node: nat, event: string, handler: string): map<nat, NodeState> {
    if event == "" || node !in dom then dom
    else dom[node := dom[node].(listeners := dom[node].listeners + [Listener(event, Invoke(handler))])]
  }

  /** One attribute of element `id`: a directive with a loader binds it; an
      `@event` attribute warns when its method is missing and otherwise listens. */
  function AttrStep(out: Output, id: nat, a: Attr, s: Store, methods: set<string>): Output {
    match DirectiveOf(a)
    case Some(d) => Bound(out, id, a.value, d, s)
    case None =>
      if !IsEventDirective(a.name) then out
      else if a.value !in methods then out.(warnings := out.warnings + [a.value])
      else out.(dom := Listened(out.dom, id, a.name[1..], a.value))
  }

  /** No attribute name is both a directive and an event. */
  lemma PrefixesDisjoint(name: string)
    ensures !(IsDirective(name) && IsEventDirective(name))
  {
    if |name| >= 2 {
      assert name[..2][0] == name[..1][0];
    }
  }

  lemma StepParts(out: Output, id: nat, a: Attr, s: Store, methods: set<string>)
    ensures var r := AttrStep(out, id, a, s, methods);
            && r.watchers == out.watchers + AttrBinding(id, a)
            && r.deps == (if DirectiveOf(a).Some? then Subscribed(out.deps, s, a.value, |out.watchers|) else out.deps)
            && r.warnings == out.warnings + (if IsEventDirective(a.name) && a.value !in methods then [a.value] else [])
            && r.dom.Keys == out.dom.Keys
            && forall x :: x in out.dom && x != id ==> r.dom[x] == out.dom[x]
  {
    PrefixesDisjoint(a.name);
  }

  /** `compileElement`: the attributes in order. */
  function AttrsCompiled(out: Output, id: nat, attrs: seq<Attr>, s: Store, methods: set<string>): Output
    decreases |attrs|
  {
    if attrs == [] then out
    else AttrStep(AttrsCompiled(out, id, attrs[..|attrs| - 1], s, methods), id, attrs[|attrs| - 1], s, methods)
  }

  /** One visited node: an element compiles its attributes, an interpolation
      binds its capture to `text`, any other node does nothing. */
  function NodeStep(out: Output, n: Node, s: Store, methods: set<string>): Output {
    if IsElement(n) then AttrsCompiled(out, n.id, n.attrs, s, methods)
    else if IsInter(n) then Bound(out, n.id, Capture(n.text).value, Text, s)
    else out
  }

  /** The nodes in the order they are visited. */
  function Compiled(out: Output, ns: seq<Node>, s: Store, methods: set<string>): Output
    decreases |ns|
  {
    if ns == [] then out
    else NodeStep(Compiled(out, ns[..|ns| - 1], s, methods), ns[|ns| - 1], s, methods)
  }

  lemma CompiledOne(out: Output, n: Node, s: Store, methods: set<string>)
    ensures Compiled(out, [n], s, methods) == NodeStep(out, n, s, methods)
  {
    assert [n][..0] == [];
  }

  lemma {:induction false} CompiledConcat(out: Output, a: seq<Node>, b: seq<Node>, s: Store, methods: set<string>)
    ensures Compiled(out, a + b, s, methods) == Compiled(Compiled(out, a, s, methods), b, s, methods)
    decreases |b|
  {
    if b == [] {
      assert a + b == a;
    } else {
      assert (a + b)[..|a + b| - 1] == a + b[..|b| - 1];
      CompiledConcat(out, a, b[..|b| - 1], s, methods);
    }
  }

  /** Compiling the children of `cs[k]`'s parent up to and including the subtree of `cs[k]`. */
  lemma CompiledSubtree(out: Output, cs: seq<Node>, k: nat, s: Store, methods: set<string>)
    requires k < |cs|
    ensures Compiled(out, Forest(cs[..k + 1]), s, methods)
         == Compiled(NodeStep(Compiled(out, Forest(cs[..k]), s, methods), cs[k], s, methods), Descendants(cs[k]), s, methods)
  {
    ForestSnoc(cs, k);
    var f := Forest(cs[..k]);
    CompiledConcat(out, f + [cs[k]], Descendants(cs[k]), s, methods);
    CompiledConcat(out, f, [cs[k]], s, methods);
    CompiledOne(Compiled(out, f, s, methods), cs[k], s, methods);
  }

  // ---------------------------------------------------------------------------
  // Watchers

  /** The watcher a directive attribute of element `id` gets, if any. */
  function AttrBinding(id: nat, a: Attr): seq<Watcher> {
    match DirectiveOf(a)
    case Some(d) => [Watcher(a.value, id, d)]
    case None => []
  }

  function AttrBindings(id: nat, attrs: seq<Attr>): seq<Watcher>
    decreases |attrs|
  {
    if attrs == [] then [] else AttrBindings(id, attrs[..|attrs| - 1]) + AttrBinding(id, attrs[|attrs| - 1])
  }

  function NodeBindings(n: Node): seq<Watcher> {
    if IsElement(n) then AttrBindings(n.id, n.attrs)
    else if IsInter(n) then [Watcher(Capture(n.text).value, n.id, Text)]
    else []
  }

  /** The watchers a list of visited nodes creates, in creation order. */
  function Bindings(ns: seq<Node>): seq<Watcher>
    decreases |ns|
  {
    if ns == [] then [] else Bindings(ns[..|ns| - 1]) + NodeBindings(ns[|ns| - 1])
  }

  lemma {:induction false} AttrsWatchers(out: Output, id: nat, attrs: seq<Attr>, s: Store, methods: set<string>)
    ensures AttrsCompiled(out, id, attrs, s, methods).watchers == out.watchers + AttrBindings(id, attrs)
    decreases |attrs|
  {
    if attrs != [] {
      var init := attrs[..|attrs| - 1];
      AttrsWatchers(out, id, init, s, methods);
      StepParts(AttrsCompiled(out, id, init, s, methods), id, attrs[|attrs| - 1], s, methods);
    }
  }

  /** Compiling appends exactly the bindings of the visited nodes to the watchers. */
  lemma {:induction false} CompiledWatchers(out: Output, ns: seq<Node>, s: Store, methods: set<string>)
    ensures Compiled(out, ns, s, methods).watchers == out.watchers + Bindings(ns)
    decreases |ns|
  {
    if ns != [] {
      var init, n := ns[..|ns| - 1], ns[|ns| - 1];
      var mid := Compiled(out, init, s, methods);
      assert Compiled(out, ns, s, methods) == NodeStep(mid, n, s, methods);
      assert Bindings(ns) == Bindings(init) + NodeBindings(n);
      CompiledWatchers(out, init, s, methods);
      NodeParts(mid, n, s, methods);
    }
  }

  /** What one visited node adds: its bindings, its missing methods, and changes to its own page node only. */
  lemma NodeParts(out: Output, n: Node, s: Store, methods: set<string>)
    ensures var r := NodeStep(out, n, s, methods);
            && r.watchers == out.watchers + NodeBindings(n)
            && r.warnings == out.warnings + (if IsElement(n) then Missing(n.attrs, methods) else [])
            && r.dom.Keys == out.dom.Keys
            && forall x :: x in out.dom && x != n.id ==> x in r.dom && r.dom[x] == out.dom[x]
  {
    if IsElement(n) {
      AttrsWatchers(out, n.id, n.attrs, s, methods);
      AttrsWarnings(out, n.id, n.attrs, s, methods);
      forall x | x in out.dom && x != n.id
        ensures x in NodeStep(out, n, s, methods).dom && NodeStep(out, n, s, methods).dom[x] == out.dom[x]
      {
        AttrsFrame(out, n.id, n.attrs, s, methods, x);
      }
      AttrsKeys(out, n.id, n.attrs, s, methods);
    }
  }

  lemma {:induction false} BindingsConcat(a: seq<Node>, b: seq<Node>)
    ensures Bindings(a + b) == Bindings(a) + Bindings(b)
    decreases |b|
  {
    if b == [] {
      assert a + b == a;
    } else {
      var init, last := b[..|b| - 1], b[|b| - 1];
      assert (a + b)[..|a + b| - 1] == a + init;
      assert (a + b)[|a + b| - 1] == last;
      BindingsConcat(a, init);
      calc {
        Bindings(a + b);
        Bindings(a + init) + NodeBindings(last);
        Bindings(a) + Bindings(init) + NodeBindings(last);
        Bindings(a) + (Bindings(init) + NodeBindings(last));
        Bindings(a) + Bindings(b);
      }
    }
  }

  /** The indices of the attributes that have a loader. */
  function DirectiveIndices(attrs: seq<Attr>): set<nat> {
    set i: nat | i < |attrs| && DirectiveOf(attrs[i]).Some?
  }

  lemma IndicesSnoc(attrs: seq<Attr>)
    requires attrs != []
    ensures var init, a := attrs[..|attrs| - 1], attrs[|attrs| - 1];
            DirectiveIndices(attrs) == DirectiveIndices(init) + if DirectiveOf(a).Some? then {|init|} else {}
  {
    var init, a := attrs[..|attrs| - 1], attrs[|attrs| - 1];
    var here: set<nat> := if DirectiveOf(a).Some? then {|init|} else {};
    forall i: nat | i in DirectiveIndices(attrs) ensures i in DirectiveIndices(init) + here {
      if i < |init| {
        assert attrs[i] == init[i];
      }
    }
    forall i: nat | i in DirectiveIndices(init) + here ensures i in DirectiveIndices(attrs) {
      if i < |init| {
        assert attrs[i] == init[i];
      }
    }
  }

  /** An element gets one watcher per `m-text`, `m-html`, `m-model` or `m-if`
      attribute, and none for any other attribute. */
  lemma {:induction false} AttrBindingsCount(id: nat, attrs: seq<Attr>)
    ensures |AttrBindings(id, attrs)| == |DirectiveIndices(attrs)|
    decreases |attrs|
  {
    if attrs != [] {
      var init, a := attrs[..|attrs| - 1], attrs[|attrs| - 1];
      AttrBindingsCount(id, init);
      var here: set<nat> := if DirectiveOf(a).Some? then {|init|} else {};
      IndicesSnoc(attrs);
      assert DirectiveIndices(init) !! here;
    }
  }

  /** The number of bindings in a subtree below (not including) n, counted on the tree. */
  function Occurrences(n: Node): nat
    decreases n, 1
  {
    ForestOccurrences(n.children)
  }

  function ForestOccurrences(cs: seq<Node>): nat
    decreases cs, 0
  {
    if cs == [] then 0
    else
      var c := cs[|cs| - 1];
      ForestOccurrences(cs[..|cs| - 1]) + Own(c) + Occurrences(c)
  }

  /** One per interpolation text node, one per directive attribute with a loader. */
  function Own(n: Node): nat {
    if IsElement(n) then |DirectiveIndices(n.attrs)| else if IsInter(n) then 1 else 0
  }

  /** Compiling under n creates as many watchers as there are bindings in the
      subtree below n. */
  lemma {:induction false} BindingCount(n: Node)
    ensures |Bindings(Descendants(n))| == Occurrences(n)
    decreases n, 1
  {
    ForestBindingCount(n.children);
  }

  lemma {:induction false} ForestBindingCount(cs: seq<Node>)
    ensures |Bindings(Forest(cs))| == ForestOccurrences(cs)
    decreases cs, 0
  {
    if cs != [] {
      var init, c := cs[..|cs| - 1], cs[|cs| - 1];
      ForestBindingCount(init);
      BindingCount(c);
      BindingsConcat(Forest(init) + [c], Descendants(c));
      BindingsConcat(Forest(init), [c]);
      assert [c][..0] == [];
      if IsElement(c) {
        AttrBindingsCount(c.id, c.attrs);
      }
    }
  }

  // ---------------------------------------------------------------------------
  // Subscriptions

  /** The deps after the watchers ws, numbered from `start`, each read their key once. */
  function SubscribedAll(deps: map<Prop, seq<nat>>, s: Store, start: nat, ws: seq<Watcher>): map<Prop, seq<nat>>
    decreases |ws|
  {
    if ws == [] then deps
    else Subscribed(SubscribedAll(deps, s, start, ws[..|ws| - 1]), s, ws[|ws| - 1].key, start + |ws| - 1)
  }

  /** The ids, numbered from `start`, of the watchers in ws that read `key`. */
  function Positions(ws: seq<Watcher>, key: string, start: nat): seq<nat>
    decreases |ws|
  {
    if ws == [] then []
    else Positions(ws[..|ws| - 1], key, start) + if ws[|ws| - 1].key == key then [start + |ws| - 1] else []
  }

  lemma {:induction false} AttrsDeps(out: Output, id: nat, attrs: seq<Attr>, s: Store, methods: set<string>)
    ensures AttrsCompiled(out, id, attrs, s, methods).deps == SubscribedAll(out.deps, s, |out.watchers|, AttrBindings(id, attrs))
    decreases |attrs|
  {
    if attrs != [] {
      var init, a := attrs[..|attrs| - 1], attrs[|attrs| - 1];
      AttrsDeps(out, id, init, s, methods);
      AttrsWatchers(out, id, init, s, methods);
      StepParts(AttrsCompiled(out, id, init, s, methods), id, a, s, methods);
      var mid := AttrsCompiled(out, id, init, s, methods);
      var ws := AttrBindings(id, init);
      assert AttrsCompiled(out, id, attrs, s, methods) == AttrStep(mid, id, a, s, methods);
      assert AttrBindings(id, attrs) == ws + AttrBinding(id, a);
      SubscribedAllConcat(out.deps, s, |out.watchers|, ws, AttrBinding(id, a));
      if DirectiveOf(a).Some? {
        SubscribedAllOne(mid.deps, s, |out.watchers| + |ws|, AttrBinding(id, a)[0]);
      }
    }
  }

  lemma SubscribedAllOne(deps: map<Prop, seq<nat>>, s: Store, start: nat, w: Watcher)
    ensures SubscribedAll(deps, s, start, [w]) == Subscribed(deps, s, w.key, start)
  {
    assert [w][..0] == [];
  }

  lemma {:induction false} SubscribedAllConcat(deps: map<Prop, seq<nat>>, s: Store, start: nat, a: seq<Watcher>, b: seq<Watcher>)
    ensures SubscribedAll(deps, s, start, a + b) == SubscribedAll(SubscribedAll(deps, s, start, a), s, start + |a|, b)
    decreases |b|
  {
    if b == [] {
      assert a + b == a;
    } else {
      assert (a + b)[..|a + b| - 1] == a + b[..|b| - 1];
      SubscribedAllConcat(deps, s, start, a, b[..|b| - 1]);
    }
  }

  /** Compiling subscribes exactly the new watchers, in creation order. */
  lemma {:induction false} CompiledDeps(out: Output, ns: seq<Node>, s: Store, methods: set<string>)
    ensures Compiled(out, ns, s, methods).deps == SubscribedAll(out.deps, s, |out.watchers|, Bindings(ns))
    decreases |ns|
  {
    if ns != [] {
      var init, n := ns[..|ns| - 1], ns[|ns| - 1];
      assert Bindings(ns) == Bindings(init) + NodeBindings(n);
      CompiledDeps(out, init, s, methods);
      CompiledWatchers(out, init, s, methods);
      SubscribedAllConcat(out.deps, s, |out.watchers|, Bindings(init), NodeBindings(n));
      CompiledDepsStep(out, ns, s, methods);
    }
  }

  lemma CompiledDepsStep(out: Output, ns: seq<Node>, s: Store, methods: set<string>)
    requires ns != []
    ensures var mid := Compiled(out, ns[..|ns| - 1], s, methods);
            Compiled(out, ns, s, methods).deps == SubscribedAll(mid.deps, s, |mid.watchers|, NodeBindings(ns[|ns| - 1]))
  {
    NodeDeps(Compiled(out, ns[..|ns| - 1], s, methods), ns[|ns| - 1], s, methods);
  }

  lemma NodeDeps(out: Output, n: Node, s: Store, methods: set<string>)
    ensures NodeStep(out, n, s, methods).deps == SubscribedAll(out.deps, s, |out.watchers|, NodeBindings(n))
  {
    if IsElement(n) {
      AttrsDeps(out, n.id, n.attrs, s, methods);
    } else if IsInter(n) {
      SubscribedAllOne(out.deps, s, |out.watchers|, Watcher(Capture(n.text).value, n.id, Text));
    }
  }

  /** The dep of an instrumented, proxied top-level key gains the ids of the new
      watchers on that key, each once and in order; every other dep is unchanged. */
  lemma {:induction false} SubscribedAllAt(deps: map<Prop, seq<nat>>, s: Store, start: nat, ws: seq<Watcher>, q: Prop)
    requires q in deps
    ensures SubscribedAll(deps, s, start, ws).Keys == deps.Keys
    ensures SubscribedAll(deps, s, start, ws)[q]
         == deps[q] + if q.obj == s.root && q.key in s.proxied then Positions(ws, q.key, start) else []
    decreases |ws|
  {
    if ws != [] {
      SubscribedAllAt(deps, s, start, ws[..|ws| - 1], q);
    }
  }

  /** Watcher `start + j` is in the positions for `key` exactly when watcher j of ws
      reads `key`, and the positions increase, so each appears once. */
  lemma {:induction false} PositionsExact(ws: seq<Watcher>, key: string, start: nat)
    ensures forall x :: x in Positions(ws, key, start) ==> start <= x < start + |ws| && ws[x - start].key == key
    ensures forall j :: 0 <= j < |ws| && ws[j].key == key ==> start + j in Positions(ws, key, start)
    ensures forall i, j :: 0 <= i < j < |Positions(ws, key, start)| ==> Positions(ws, key, start)[i] < Positions(ws, key, start)[j]
    decreases |ws|
  {
    if ws != [] {
      var init := ws[..|ws| - 1];
      PositionsExact(init, key, start);
      var p, q := Positions(init, key, start), Positions(ws, key, start);
      var tail := if ws[|ws| - 1].key == key then [start + |ws| - 1] else [];
      assert q == p + tail;
      forall x | x in q ensures start <= x < start + |ws| && ws[x - start].key == key {
        if x in p {
          assert ws[x - start] == init[x - start];
        }
      }
      forall j | 0 <= j < |ws| && ws[j].key == key ensures start + j in q {
        if j < |init| {
          assert init[j] == ws[j];
          assert start + j in p;
        }
      }
      forall i, j | 0 <= i < j < |q| ensures q[i] < q[j] {
        if j < |p| {
          assert q[i] == p[i] && q[j] == p[j];
        } else {
          assert q[i] in p;
        }
      }
    }
  }

  // ---------------------------------------------------------------------------
  // Warnings and listeners

  /** The method names of the `@event` attributes whose method is missing, in order. */
  function Missing(attrs: seq<Attr>, methods: set<string>): seq<string>
    decreases |attrs|
  {
    if attrs == [] then []
    else
      var a := attrs[|attrs| - 1];
      Missing(attrs[..|attrs| - 1], methods) + if IsEventDirective(a.name) && a.value !in methods then [a.value] else []
  }

  function Warnings(ns: seq<Node>, methods: set<string>): seq<string>
    decreases |ns|
  {
    if ns == [] then []
    else
      var n := ns[|ns| - 1];
      Warnings(ns[..|ns| - 1], methods) + if IsElement(n) then Missing(n.attrs, methods) else []
  }

  lemma {:induction false} AttrsWarnings(out: Output, id: nat, attrs: seq<Attr>, s: Store, methods: set<string>)
    ensures AttrsCompiled(out, id, attrs, s, methods).warnings == out.warnings + Missing(attrs, methods)
    decreases |attrs|
  {
    if attrs != [] {
      var a := attrs[|attrs| - 1];
      AttrsWarnings(out, id, attrs[..|attrs| - 1], s, methods);
      StepParts(AttrsCompiled(out, id, attrs[..|attrs| - 1], s, methods), id, a, s, methods);
    }
  }

  /** One warning per `@event` attribute whose method is missing, and no other. */
  lemma {:induction false} CompiledWarnings(out: Output, ns: seq<Node>, s: Store, methods: set<string>)
    ensures Compiled(out, ns, s, methods).warnings == out.warnings + Warnings(ns, methods)
    decreases |ns|
  {
    if ns != [] {
      var init, n := ns[..|ns| - 1], ns[|ns| - 1];
      var mid := Compiled(out, init, s, methods);
      assert Compiled(out, ns, s, methods) == NodeStep(mid, n, s, methods);
      CompiledWarnings(out, init, s, methods);
      NodeParts(mid, n, s, methods);
    }
  }

  /** An `@event` attribute: with its method missing it only warns; with its
      method present it attaches one listener calling that method, unless the
      event type is empty. Either way no watcher is created. */
  lemma EventAttr(out: Output, id: nat, a: Attr, s: Store, methods: set<string>)
    requires IsEventDirective(a.name) && id in out.dom
    ensures var r := AttrStep(out, id, a, s, methods);
            && r.watchers == out.watchers && r.deps == out.deps
            && r.warnings == out.warnings + (if a.value in methods then [] else [a.value])
            && r.dom == if a.value !in methods || |a.name| == 1 then out.dom
                        else out.dom[id := out.dom[id].(listeners := out.dom[id].listeners + [Listener(a.name[1..], Invoke(a.value))])]
  {
    PrefixesDisjoint(a.name);
  }

  /** Compiling keeps the set of page nodes, and leaves a node untouched unless it is visited. */
  lemma {:induction false} CompiledFrame(out: Output, ns: seq<Node>, s: Store, methods: set<string>, x: nat)
    requires x in out.dom && forall i :: 0 <= i < |ns| ==> ns[i].id != x
    ensures Compiled(out, ns, s, methods).dom.Keys == out.dom.Keys
    ensures Compiled(out, ns, s, methods).dom[x] == out.dom[x]
    decreases |ns|
  {
    if ns != [] {
      var init, n := ns[..|ns| - 1], ns[|ns| - 1];
      var mid := Compiled(out, init, s, methods);
      assert Compiled(out, ns, s, methods) == NodeStep(mid, n, s, methods);
      CompiledFrame(out, init, s, methods, x);
      NodeParts(mid, n, s, methods);
    }
  }

  lemma {:induction false} AttrsFrame(out: Output, id: nat, attrs: seq<Attr>, s: Store, methods: set<string>, x: nat)
    requires x in out.dom && id != x
    ensures AttrsCompiled(out, id, attrs, s, methods).dom.Keys == out.dom.Keys
    ensures AttrsCompiled(out, id, attrs, s, methods).dom[x] == out.dom[x]
    decreases |attrs|
  {
    if attrs != [] {
      AttrsFrame(out, id, attrs[..|attrs| - 1], s, methods, x);
      StepParts(AttrsCompiled(out, id, attrs[..|attrs| - 1], s, methods), id, attrs[|attrs| - 1], s, methods);
    }
  }

  lemma {:induction false} AttrsKeys(out: Output, id: nat, attrs: seq<Attr>, s: Store, methods: set<string>)
    ensures AttrsCompiled(out, id, attrs, s, methods).dom.Keys == out.dom.Keys
    decreases |attrs|
  {
    if attrs != [] {
      AttrsKeys(out, id, attrs[..|attrs| - 1], s, methods);
      StepParts(AttrsCompiled(out, id, attrs[..|attrs| - 1], s, methods), id, attrs[|attrs| - 1], s, methods);
    }
  }

  /** Every node in ns is a node of the page. */
  ghost predicate OnPage(ns: seq<Node>, ids: set<nat>) {
    forall d :: d in ns ==> d.id in ids
  }

  lemma OnPageSplit(cs: seq<Node>, k: nat, ids: set<nat>)
    requires k < |cs| && OnPage(Forest(cs), ids)
    ensures cs[k].id in ids && OnPage(Descendants(cs[k]), ids)
  {
    ForestSplit(cs, k);
    assert cs[k] in Forest(cs);
  }

  // ---------------------------------------------------------------------------
  // The compiler

  class Compiler {
    const vm: ViewModel
    /** The names in `methods`. */
    const methods: set<string>
    /** The warnings printed so far. */
    var warnings: seq<string>

    function Current(): Output
      reads this`warnings, vm`watchers, vm`deps, vm`dom
    {
      Output(vm.watchers, vm.deps, vm.dom, warnings)
    }

    /** `new Compiler(vm, el)`: compile the root element when the selector found one. */
    constructor (vm: ViewModel, methods: set<string>, root: Option<Node>)
      requires vm.Valid()
      requires root.Some? ==> OnPage(Descendants(root.value), vm.dom.Keys)
      modifies vm`deps, vm`watchers, vm`dom, vm`target
      ensures this.vm == vm && this.methods == methods && vm.Valid()
      ensures root.None? ==> Current() == Output(old(vm.watchers), old(vm.deps), old(vm.dom), [])
      ensures root.Some? ==>
                Current() == Compiled(Output(old(vm.watchers), old(vm.deps), old(vm.dom), []), Descendants(root.value), vm.Data(), methods)
    {
      this.vm := vm;
      this.methods := methods;
      warnings := [];
      new;
      if root.Some? {
        Compile(root.value);
      }
    }

    /** `compile(el)`: each child in order is compiled, then its own children. */
    method Compile(el: Node)
      requires vm.Valid()
      requires OnPage(Descendants(el), vm.dom.Keys)
      modifies this`warnings, vm`deps, vm`watchers, vm`dom, vm`target
      ensures vm.Valid() && vm.dom.Keys == old(vm.dom.Keys)
      ensures Current() == Compiled(old(Current()), Descendants(el), vm.Data(), methods)
      decreases el, 1
    {
      ghost var start, s, ids := Current(), vm.Data(), vm.dom.Keys;
      var i := 0;
      while i < |el.children|
        invariant 0 <= i <= |el.children|
        invariant vm.Valid() && vm.dom.Keys == ids && vm.Data() == s
        invariant Current() == Compiled(start, Forest(el.children[..i]), s, methods)
      {
        var child := el.children[i];
        OnPageSplit(el.children, i, ids);
        CompileChild(child);
        CompiledSubtree(start, el.children, i, s, methods);
        i := i + 1;
      }
      TakeAll(el.children);
    }

    /** One iteration of `compile`'s loop: the child itself, then, when it has
        children, the subtree below it. */
    method CompileChild(child: Node)
      requires vm.Valid()
      requires child.id in vm.dom && OnPage(Descendants(child), vm.dom.Keys)
      modifies this`warnings, vm`deps, vm`watchers, vm`dom, vm`target
      ensures vm.Valid() && vm.dom.Keys == old(vm.dom.Keys)
      ensures Current() == Compiled(NodeStep(old(Current()), child, vm.Data(), methods), Descendants(child), vm.Data(), methods)
      decreases child, 2
    {
      CompileNode(child);
      if |child.children| > 0 {
        Compile(child);
      }
    }

    /** The callback `compile` runs on each child before descending into it:
        an element compiles its attributes, an interpolation its capture. */
    method CompileNode(n: Node)
      requires vm.Valid() && n.id in vm.dom
      modifies this`warnings, vm`deps, vm`watchers, vm`dom, vm`target
      ensures vm.Valid() && vm.dom.Keys == old(vm.dom.Keys)
      ensures Current() == NodeStep(old(Current()), n, vm.Data(), methods)
    {
      if IsElement(n) {
        CompileElement(n);
      } else if IsInter(n) {
        CompileText(n);
      }
    }

    /** `compileElement(node)`: every attribute, in order. */
    method CompileElement(node: Node)
      requires vm.Valid() && IsElement(node) && node.id in vm.dom
      modifies this`warnings, vm`deps, vm`watchers, vm`dom, vm`target
      ensures vm.Valid() && vm.dom.Keys == old(vm.dom.Keys)
      ensures Current() == AttrsCompiled(old(Current()), node.id, node.attrs, vm.Data(), methods)
    {
      ghost var start, s := Current(), vm.Data();
      var i := 0;
      while i < |node.attrs|
        invariant 0 <= i <= |node.attrs|
        invariant vm.Valid() && vm.dom.Keys == old(vm.dom.Keys) && vm.Data() == s
        invariant Current() == AttrsCompiled(start, node.id, node.attrs[..i], s, methods)
      {
        TakeSnoc(node.attrs, i);
        CompileAttr(node.id, node.attrs[i]);
        i := i + 1;
      }
      TakeAll(node.attrs);
    }

    /** The callback `compileElement` runs on one attribute of element `node`. */
    method CompileAttr(node: nat, a: Attr)
      requires vm.Valid() && node in vm.dom
      modifies this`warnings, vm`deps, vm`watchers, vm`dom, vm`target
      ensures vm.Valid() && vm.dom.Keys == old(vm.dom.Keys)
      ensures Current() == AttrStep(old(Current()), node, a, vm.Data(), methods)
    {
      PrefixesDisjoint(a.name);
      if IsDirective(a.name) {
        Load(node, a.name[2..], a.value);
      }
      if IsEventDirective(a.name) {
        if a.value !in methods {
          warnings := warnings + [a.value];
        } else {
          BindEvent(node, a.name[1..], a.value);
        }
      }
    }

    /** `compileText(node)`: bind the capture of the interpolation to `text`. */
    method CompileText(node: Node)
      requires vm.Valid() && IsInter(node) && node.id in vm.dom
      modifies vm`deps, vm`watchers, vm`dom, vm`target
      ensures vm.Valid() && vm.dom.Keys == old(vm.dom.Keys)
      ensures Current() == Bound(old(Current()), node.id, Capture(node.text).value, Text, vm.Data())
    {
      Update(node.id, Capture(node.text).value, Text);
    }

    /** The `textLoader`, `htmlLoader`, `modelLoader` and `ifLoader` dispatch:
        a keyword without a loader does nothing. */
    method Load(node: nat, keyword: string, exp: string)
      requires vm.Valid() && node in vm.dom
      modifies vm`deps, vm`watchers, vm`dom, vm`target
      ensures vm.Valid() && vm.dom.Keys == old(vm.dom.Keys)
      ensures Current() == match DirOf(keyword)
                           case Some(d) => Bound(old(Current()), node, exp, d, vm.Data())
                           case None => old(Current())
    {
      match DirOf(keyword)
      case Some(d) => Update(node, exp, d);
      case None =>
    }

    /** `update(node, exp, dir)`: run the updater with the current `vm[exp]`, read
        while `Dep.target` is null, then create the watcher. */
    method Update(node: nat, exp: string, dir: Dir)
      requires vm.Valid() && node in vm.dom
      modifies vm`deps, vm`watchers, vm`dom, vm`target
      ensures vm.Valid() && vm.dom.Keys == old(vm.dom.Keys)
      ensures Current() == Bound(old(Current()), node, exp, dir, vm.Data())
    {
      var v := vm.Get(exp);
      vm.ApplyUpdater(node, dir, v, exp);
      var _ := vm.NewWatcher(exp, node, dir);
    }

    /** `bindEvent(node, type, handler)`. */
    method BindEvent(node: nat, event: string, handler: string)
      requires vm.Valid() && node in vm.dom
      modifies vm`dom
      ensures vm.Valid() && vm.dom.Keys == old(vm.dom.Keys)
      ensures vm.dom == Listened(old(vm.dom), node, event, handler)
    {
      if event != "" {
        vm.Listen(node, Listener(event, Invoke(handler)));
      }
    }
  }
}
