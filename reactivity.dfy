/** The reactivity engine: instrumented objects whose properties each own a Dep
    (an append-only list of watchers), the process-wide `Dep.target` slot,
    watchers that re-run one updater, and the proxy from the view model's
    top-level keys to its data object. */
module Reactivity {
  import opened Values
  import opened Dom
  import opened Collections

  /** Every object, by id: its own keys and the value each one currently holds
      (for an instrumented key, the value held by its getter/setter closure). */
  type Heap = map<nat, map<string, Value>>

  /** One property of one object. An instrumented property owns one Dep. */
  datatype Prop = Prop(obj: nat, key: string)

  /** A watcher: the top-level key it reads and the updater it re-runs on `node`. */
  datatype Watcher = Watcher(key: string, node: nat, dir: Dir)

  /** What bindings can read: the objects, the data object `$data`, the keys the
      proxy forwards, and plain properties assigned on the view model itself. */
  datatype Store = Store(heap: Heap, root: nat, proxied: set<string>, loose: map<string, Value>)

  /** `obj[key]` for an own property, `undefined` otherwise. */
  function PropValue(heap: Heap, o: nat, k: string): Value {
    if o in heap && k in heap[o] then heap[o][k] else Undefined
  }

  /** `vm[key]`: a proxied key reads `vm.$data[key]`; any other key reads a plain
      property of the view model, or `undefined`. */
  function Lookup(s: Store, key: string): Value {
    if key in s.proxied then PropValue(s.heap, s.root, key)
    else if key in s.loose then s.loose[key]
    else Undefined
  }

  /** The getter's side effect on the deps: when `Dep.target` holds a watcher, it
      is appended to the property's dep -- once per read, without de-duplication. */
  function Collected(deps: map<Prop, seq<nat>>, p: Prop, target: Option<nat>): (r: map<Prop, seq<nat>>)
    ensures r.Keys == deps.Keys
    ensures forall q :: q in deps && q != p ==> r[q] == deps[q]
    ensures p in deps && target.Some? ==> r[p] == deps[p] + [target.value]
    ensures target.None? ==> r == deps
  {
    if p in deps && target.Some? then deps[p := deps[p] + [target.value]] else deps
  }

  /** The deps after watcher `w`, collecting, reads `vm[key]`. */
  function Subscribed(deps: map<Prop, seq<nat>>, s: Store, key: string, w: nat): map<Prop, seq<nat>> {
    if key in s.proxied then Collected(deps, Prop(s.root, key), Some(w)) else deps
  }

  function Select(watchers: seq<Watcher>, ids: seq<nat>): (ws: seq<Watcher>)
    requires forall i :: 0 <= i < |ids| ==> ids[i] < |watchers|
    ensures |ws| == |ids| && forall i :: 0 <= i < |ids| ==> ws[i] == watchers[ids[i]]
  {
    seq(|ids|, i requires 0 <= i < |ids| => watchers[ids[i]])
  }

  // ---------------------------------------------------------------------------
  // Instrumentation

  /** The heap is closed and acyclic: every object a property refers to exists and
      has a smaller rank. (`observe` recurses forever on a cyclic object.) */
  ghost predicate Ranked(heap: Heap, rank: map<nat, nat>) {
    && heap.Keys <= rank.Keys
    && forall o, k :: o in heap && k in heap[o] && heap[o][k].Ref? ==>
         heap[o][k].obj in heap && rank[heap[o][k].obj] < rank[o]
  }

  /** The properties `observe(v)` gives a renewed dep: none for a non-object, and for
      an object every own key, then recursively the properties of every object
      value among them. */
  ghost function Reach(heap: Heap, rank: map<nat, nat>, v: Value): set<Prop>
    requires Ranked(heap, rank)
    decreases if v.Ref? && v.obj in heap then rank[v.obj] + 1 else 0, 1
  {
    if v.Ref? && v.obj in heap then KeysReach(heap, rank, v.obj, heap[v.obj].Keys) else {}
  }

  /** The properties instrumented by `defineReative(o, k, o[k])` for every k in ks. */
  ghost function KeysReach(heap: Heap, rank: map<nat, nat>, o: nat, ks: set<string>): set<Prop>
    requires Ranked(heap, rank) && o in heap && ks <= heap[o].Keys
    decreases rank[o] + 1, 0
  {
    (set k | k in ks :: Prop(o, k)) + (set k, p | k in ks && p in Reach(heap, rank, heap[o][k]) :: p)
  }

  /** Every property in `renewed` gets a new, empty dep; the others keep theirs. */
  function Reset(deps: map<Prop, seq<nat>>, renewed: set<Prop>): (r: map<Prop, seq<nat>>)
    ensures r.Keys == deps.Keys + renewed
    ensures forall p :: p in r ==> r[p] == if p in renewed then [] else deps[p]
  {
    map p | p in deps.Keys + renewed :: if p in renewed then [] else deps[p]
  }

  lemma ResetTwice(deps: map<Prop, seq<nat>>, a: set<Prop>, b: set<Prop>)
    ensures Reset(Reset(deps, a), b) == Reset(deps, a + b)
  {
    var l, r := Reset(Reset(deps, a), b), Reset(deps, a + b);
    assert l.Keys == r.Keys;
    forall p | p in l ensures l[p] == r[p] {
    }
  }

  lemma ResetOne(deps: map<Prop, seq<nat>>, p: Prop)
    ensures Reset(deps, {p}) == deps[p := []]
  {
  }

  lemma KeysReachAdd(heap: Heap, rank: map<nat, nat>, o: nat, ks: set<string>, k: string)
    requires Ranked(heap, rank) && o in heap && ks <= heap[o].Keys && k in heap[o]
    ensures KeysReach(heap, rank, o, ks + {k})
         == KeysReach(heap, rank, o, ks) + (Reach(heap, rank, heap[o][k]) + {Prop(o, k)})
  {
    var l := KeysReach(heap, rank, o, ks + {k});
    var r := KeysReach(heap, rank, o, ks) + (Reach(heap, rank, heap[o][k]) + {Prop(o, k)});
    forall p | p in l ensures p in r {
    }
    forall p | p in r ensures p in l {
      if p in Reach(heap, rank, heap[o][k]) {
        assert k in ks + {k};
      }
    }
  }

  /** Instrumentation only touches existing properties, and never a property of an
      object ranked above the value it starts from. */
  lemma {:induction false} ReachBelow(heap: Heap, rank: map<nat, nat>, v: Value, q: Prop)
    requires Ranked(heap, rank) && q in Reach(heap, rank, v)
    ensures q.obj in heap && q.key in heap[q.obj]
    ensures v.Ref? && rank[q.obj] <= rank[v.obj]
    decreases if v.Ref? && v.obj in heap then rank[v.obj] + 1 else 0
  {
    var o := v.obj;
    if q !in (set k | k in heap[o].Keys :: Prop(o, k)) {
      var k :| k in heap[o] && q in Reach(heap, rank, heap[o][k]);
      ReachBelow(heap, rank, heap[o][k], q);
    }
  }

  /** Observing the new value of a property never renews that property's own dep. */
  lemma NotReached(heap: Heap, rank: map<nat, nat>, o: nat, k: string)
    requires Ranked(heap, rank) && o in heap && k in heap[o]
    ensures Prop(o, k) !in Reach(heap, rank, heap[o][k])
  {
    if Prop(o, k) in Reach(heap, rank, heap[o][k]) {
      ReachBelow(heap, rank, heap[o][k], Prop(o, k));
      assert false;
    }
  }

  // ---------------------------------------------------------------------------
  // Watchers re-rendering

  /** The page after each watcher in `ws`, in order, re-reads its key and re-runs its updater. */
  function Refreshed(dom: map<nat, NodeState>, ws: seq<Watcher>, s: Store): (r: map<nat, NodeState>)
    ensures r.Keys == dom.Keys
    ensures forall n :: n in dom && (forall i :: 0 <= i < |ws| ==> ws[i].node != n) ==> r[n] == dom[n]
    decreases |ws|
  {
    if ws == [] then dom
    else
      var d, w := Refreshed(dom, ws[..|ws| - 1], s), ws[|ws| - 1];
      if w.node in d then d[w.node := Updated(d[w.node], w.dir, Lookup(s, w.key), w.key)] else d
  }

  /** Some watcher in ws re-runs updater `dir` on node n. */
  ghost predicate Binds(ws: seq<Watcher>, n: nat, dir: Dir) {
    exists i :: 0 <= i < |ws| && ws[i].node == n && ws[i].dir == dir
  }

  /** The `input` listeners the model updaters in ws add to node n, in order. */
  function WriteBacks(ws: seq<Watcher>, n: nat): seq<Listener> {
    if ws == [] then []
    else
      var w := ws[|ws| - 1];
      WriteBacks(ws[..|ws| - 1], n) + if w.node == n && w.dir == Model then [Listener("input", WriteBack(w.key))] else []
  }

  /** When every watcher in ws reads the same value v, a node ends up showing v in
      every field some watcher binds and keeps every other field. */
  lemma {:induction false} RefreshedAt(dom: map<nat, NodeState>, ws: seq<Watcher>, s: Store, v: Value, n: nat)
    requires n in dom
    requires forall i :: 0 <= i < |ws| ==> Lookup(s, ws[i].key) == v
    ensures var st, r := dom[n], Refreshed(dom, ws, s)[n];
            && r.name == st.name
            && r.text == (if Binds(ws, n, Text) then TextString(v) else st.text)
            && r.html == (if Binds(ws, n, Html) then DomString(v) else st.html)
            && r.display == (if Binds(ws, n, If) then Visibility(v) else st.display)
            && r.value == (if Binds(ws, n, Model) && st.name == "INPUT" then DomString(v) else st.value)
    decreases |ws|
  {
    if ws != [] {
      var init, w := ws[..|ws| - 1], ws[|ws| - 1];
      RefreshedAt(dom, init, s, v, n);
      BindsSnoc(ws, n, Text);
      BindsSnoc(ws, n, Html);
      BindsSnoc(ws, n, If);
      BindsSnoc(ws, n, Model);
      assert Lookup(s, w.key) == v;
      RefreshedLast(dom, ws, s, n);
    }
  }

  /** ... and gains one `input` listener per model watcher on it, in order, if it is an INPUT. */
  lemma {:induction false} RefreshedListeners(dom: map<nat, NodeState>, ws: seq<Watcher>, s: Store, n: nat)
    requires n in dom
    ensures var st := dom[n];
            Refreshed(dom, ws, s)[n].listeners == st.listeners + (if st.name == "INPUT" then WriteBacks(ws, n) else [])
    decreases |ws|
  {
    if ws != [] {
      var init := ws[..|ws| - 1];
      RefreshedListeners(dom, init, s, n);
      RefreshedLast(dom, ws, s, n);
      assert Refreshed(dom, init, s)[n].name == dom[n].name by {
        RefreshedName(dom, init, s, n);
      }
    }
  }

  lemma {:induction false} RefreshedName(dom: map<nat, NodeState>, ws: seq<Watcher>, s: Store, n: nat)
    requires n in dom
    ensures Refreshed(dom, ws, s)[n].name == dom[n].name
    decreases |ws|
  {
    if ws != [] {
      RefreshedName(dom, ws[..|ws| - 1], s, n);
      RefreshedLast(dom, ws, s, n);
    }
  }

  lemma RefreshedLast(dom: map<nat, NodeState>, ws: seq<Watcher>, s: Store, n: nat)
    requires n in dom && ws != []
    ensures var prev, w := Refreshed(dom, ws[..|ws| - 1], s), ws[|ws| - 1];
            n in prev &&
            Refreshed(dom, ws, s)[n] == if w.node == n then Updated(prev[n], w.dir, Lookup(s, w.key), w.key) else prev[n]
  {
  }

  lemma BindsSnoc(ws: seq<Watcher>, n: nat, d: Dir)
    requires ws != []
    ensures Binds(ws, n, d) <==> Binds(ws[..|ws| - 1], n, d) || (ws[|ws| - 1].node == n && ws[|ws| - 1].dir == d)
  {
    var init := ws[..|ws| - 1];
    if Binds(init, n, d) {
      var i :| 0 <= i < |init| && init[i].node == n && init[i].dir == d;
      assert ws[i] == init[i];
    }
    if Binds(ws, n, d) && !(ws[|ws| - 1].node == n && ws[|ws| - 1].dir == d) {
      var i :| 0 <= i < |ws| && ws[i].node == n && ws[i].dir == d;
      assert init[i] == ws[i];
    }
  }

  /** Every dep belongs to an existing property and lists only the first n watchers. */
  ghost predicate DepsWf(deps: map<Prop, seq<nat>>, heap: Heap, n: nat) {
    forall p :: p in deps ==>
      && p.obj in heap && p.key in heap[p.obj]
      && forall i :: 0 <= i < |deps[p]| ==> deps[p][i] < n
  }

  lemma DepsWfReset(deps: map<Prop, seq<nat>>, heap: Heap, n: nat, renewed: set<Prop>)
    requires DepsWf(deps, heap, n)
    requires forall q :: q in renewed ==> q.obj in heap && q.key in heap[q.obj]
    ensures DepsWf(Reset(deps, renewed), heap, n)
  {
  }

  lemma DepsWfCollected(deps: map<Prop, seq<nat>>, heap: Heap, n: nat, p: Prop, target: Option<nat>)
    requires DepsWf(deps, heap, n) && (target.Some? ==> target.value < n)
    ensures DepsWf(Collected(deps, p, target), heap, n)
  {
    var r := Collected(deps, p, target);
    forall q | q in r ensures forall i :: 0 <= i < |r[q]| ==> r[q][i] < n {
      if q == p && target.Some? {
        forall i | 0 <= i < |r[q]| ensures r[q][i] < n {
          if i < |deps[q]| {
            assert r[q][i] == deps[q][i];
          }
        }
      }
    }
  }

  lemma DepsWfGrow(deps: map<Prop, seq<nat>>, heap: Heap, heap': Heap, n: nat, n': nat)
    requires DepsWf(deps, heap, n) && n <= n'
    requires forall o :: o in heap ==> o in heap' && heap[o].Keys <= heap'[o].Keys
    ensures DepsWf(deps, heap', n')
  {
  }

  /** Every watcher in a dep reads the top-level key that dep belongs to. */
  ghost predicate Coherent(deps: map<Prop, seq<nat>>, watchers: seq<Watcher>, root: nat, proxied: set<string>) {
    forall p :: p in deps && deps[p] != [] ==>
      && p.obj == root && p.key in proxied
      && forall i :: 0 <= i < |deps[p]| ==> deps[p][i] < |watchers| && watchers[deps[p][i]].key == p.key
  }

  lemma CoherentReset(deps: map<Prop, seq<nat>>, watchers: seq<Watcher>, root: nat, proxied: set<string>, renewed: set<Prop>)
    requires Coherent(deps, watchers, root, proxied)
    ensures Coherent(Reset(deps, renewed), watchers, root, proxied)
  {
  }

  /** Subscribing a new last watcher that reads `key` keeps the deps coherent. */
  lemma CoherentSubscribed(deps: map<Prop, seq<nat>>, watchers: seq<Watcher>, s: Store, key: string, x: Watcher)
    requires Coherent(deps, watchers, s.root, s.proxied) && x.key == key
    ensures Coherent(Subscribed(deps, s, key, |watchers|), watchers + [x], s.root, s.proxied)
  {
    var ws, r := watchers + [x], Subscribed(deps, s, key, |watchers|);
    forall p | p in r && r[p] != []
      ensures p.obj == s.root && p.key in s.proxied
      ensures forall i :: 0 <= i < |r[p]| ==> r[p][i] < |ws| && ws[r[p][i]].key == p.key
    {
      forall i | 0 <= i < |r[p]| ensures r[p][i] < |ws| && ws[r[p][i]].key == p.key {
        if i < |deps[p]| {
          assert r[p][i] == deps[p][i];
          assert ws[deps[p][i]] == watchers[deps[p][i]];
        }
      }
    }
  }

  lemma CoherentWider(deps: map<Prop, seq<nat>>, watchers: seq<Watcher>, root: nat, proxied: set<string>, more: set<string>)
    requires Coherent(deps, watchers, root, proxied)
    ensures Coherent(deps, watchers, root, proxied + more)
  {
  }

  // ---------------------------------------------------------------------------
  // The view model

  class ViewModel {
    /** The objects, with `$data` at `root`. */
    var heap: Heap
    const root: nat
    /** The keys `proxy` has forwarded from the view model to `$data`. */
    var proxied: set<string>
    /** Plain properties assigned on the view model under keys that are not proxied. */
    var loose: map<string, Value>
    /** The dep of every instrumented property: watcher ids in subscription order. */
    var deps: map<Prop, seq<nat>>
    /** `Dep.target` */
    var target: Option<nat>
    /** Every watcher ever created; a watcher's id is its index. */
    var watchers: seq<Watcher>
    /** The state of every page node, by node id. */
    var dom: map<nat, NodeState>
    /** A witness that the heap is acyclic. */
    ghost var rank: map<nat, nat>
    /** The watcher `update` calls made so far, in order. */
    ghost var trace: seq<nat>

    function Data(): Store
      reads this`heap, this`proxied, this`loose
    {
      Store(heap, root, proxied, loose)
    }

    /** The structural invariant, which holds even while a watcher is collecting. */
    ghost predicate Wf()
      reads this
    {
      && root in heap
      && Ranked(heap, rank)
      && (forall key :: key in loose && loose[key].Ref? ==> loose[key].obj in heap)
      && proxied <= heap[root].Keys
      && DepsWf(deps, heap, |watchers|)
      && (forall w :: 0 <= w < |watchers| ==> watchers[w].node in dom)
      && (target.Some? ==> target.value < |watchers|)
    }

    /** Between operations `Dep.target` is null, and every watcher in a dep reads
        the top-level key that dep belongs to. */
    ghost predicate Valid()
      reads this
    {
      && Wf()
      && target == None
      && Coherent(deps, watchers, root, proxied)
    }

    /** A view model over a data object that is not instrumented or proxied yet. */
    constructor (heap: Heap, root: nat, dom: map<nat, NodeState>, ghost rank: map<nat, nat>)
      requires root in heap && Ranked(heap, rank)
      ensures Valid()
      ensures this.heap == heap && this.root == root && this.dom == dom && this.rank == rank
      ensures proxied == {} && loose == map[] && deps == map[] && watchers == [] && trace == []
    {
      this.heap := heap;
      this.root := root;
      this.dom := dom;
      this.rank := rank;
      proxied := {};
      loose := map[];
      deps := map[];
      target := None;
      watchers := [];
      trace := [];
    }

    // -- Instrumentation: observe, Observer.walk, defineReative

    method Observe(v: Value)
      requires Wf() && target == None && (v.Ref? ==> v.obj in heap)
      modifies this`deps
      ensures Wf() && (old(Valid()) ==> Valid())
      ensures deps == Reset(old(deps), Reach(heap, rank, v))
      decreases if v.Ref? then rank[v.obj] + 1 else 0, 2
    {
      if v.Ref? {
        Walk(v.obj);
      }
    }

    method Walk(o: nat)
      requires Wf() && target == None && o in heap
      modifies this`deps
      ensures Wf() && (old(Valid()) ==> Valid())
      ensures deps == Reset(old(deps), KeysReach(heap, rank, o, heap[o].Keys))
      decreases rank[o] + 1, 1
    {
      var todo := heap[o].Keys;
      ghost var done: set<string> := {};
      assert KeysReach(heap, rank, o, done) == {};
      assert Reset(deps, {}) == deps;
      while todo != {}
        invariant todo + done == heap[o].Keys && todo !! done
        invariant Wf()
        invariant deps == Reset(old(deps), KeysReach(heap, rank, o, done))
        decreases todo
      {
        var k :| k in todo;
        DefineReactive(o, k);
        ResetTwice(old(deps), KeysReach(heap, rank, o, done), Reach(heap, rank, heap[o][k]) + {Prop(o, k)});
        KeysReachAdd(heap, rank, o, done, k);
        MoveOne(todo, done, heap[o].Keys, k);
        todo := todo - {k};
        done := done + {k};
      }
    }

    method DefineReactive(o: nat, k: string)
      requires Wf() && target == None && o in heap && k in heap[o]
      modifies this`deps
      ensures Wf() && (old(Valid()) ==> Valid())
      ensures deps == Reset(old(deps), Reach(heap, rank, heap[o][k]) + {Prop(o, k)})
      decreases rank[o] + 1, 0
    {
      Observe(heap[o][k]);
      ResetTwice(old(deps), Reach(heap, rank, heap[o][k]), {Prop(o, k)});
      ResetOne(deps, Prop(o, k));
      DepsWfReset(deps, heap, |watchers|, {Prop(o, k)});
      deps := deps[Prop(o, k) := []];
      if old(Valid()) {
        CoherentReset(old(deps), watchers, root, proxied, Reach(heap, rank, heap[o][k]) + {Prop(o, k)});
      }
    }

    // -- The getter and the setter of a property

    /** Reading `o[k]`: through the getter when k is instrumented, which appends
        `Dep.target` to k's dep; otherwise an ordinary read. */
    method GetProp(o: nat, k: string) returns (v: Value)
      requires Wf() && o in heap
      modifies this`deps
      ensures Wf() && (old(Valid()) ==> Valid())
      ensures v == PropValue(heap, o, k)
      ensures deps == Collected(old(deps), Prop(o, k), target)
    {
      var p := Prop(o, k);
      if p in deps {
        DepsWfCollected(deps, heap, |watchers|, p, target);
        if target.Some? {
          deps := deps[p := deps[p] + [target.value]];
        }
        v := heap[o][k];
      } else {
        v := if k in heap[o] then heap[o][k] else Undefined;
      }
    }

    /** What writing v to `o[k]` did, on a page that stood at `page` when the
        write began: the property holds v; an instrumented property whose value
        was not === v instrumented v and notified its dep, which refreshed the
        page; otherwise no dep and no watcher was touched and the page is `page`. */
    twostate predicate Wrote(o: nat, k: string, v: Value, page: map<nat, NodeState>)
      reads this
    {
      var p := Prop(o, k);
      && o in old(heap)
      && heap == old(heap)[o := old(heap)[o][k := v]]
      && watchers == old(watchers)
      && Ranked(heap, rank)
      && if p in old(deps) && k in old(heap)[o] && old(heap)[o][k] != v then
           && deps == Reset(old(deps), Reach(heap, rank, v))
           && (forall i :: 0 <= i < |old(deps)[p]| ==> old(deps)[p][i] < |watchers|)
           && dom == Refreshed(page, Select(watchers, old(deps)[p]), Data())
           && trace == old(trace) + old(deps)[p]
         else
           deps == old(deps) && dom == page && trace == old(trace)
    }

    /** Writing `o[k] = v`. `newRank` witnesses that the heap stays acyclic. */
    method SetProp(o: nat, k: string, v: Value, ghost newRank: map<nat, nat>)
      requires Valid() && o in heap && (v.Ref? ==> v.obj in heap)
      requires Ranked(heap[o := heap[o][k := v]], newRank)
      modifies this`heap, this`rank, this`deps, this`dom, this`trace
      ensures Valid()
      ensures Wrote(o, k, v, old(dom)) && rank == newRank
      ensures PropValue(heap, o, k) == v
      ensures var p := Prop(o, k);
              p in old(deps) && old(heap)[o][k] != v ==>
                forall i :: 0 <= i < |old(deps)[p]| ==> Lookup(Data(), watchers[old(deps)[p][i]].key) == v
    {
      var p := Prop(o, k);
      if p in deps {
        if heap[o][k] != v {
          Assign(o, k, v, newRank);
          Renew(o, k);
        } else {
          assert heap[o][k := v] == heap[o];
          assert heap[o := heap[o][k := v]] == heap;
          rank := newRank;
        }
      } else {
        Assign(o, k, v, newRank);
      }
    }

    /** The rest of the setter `defineReative` installs, once the new value is
        stored in `o[k]`: instrument the value, then notify the property's dep. */
    method Renew(o: nat, k: string)
      requires Valid() && Prop(o, k) in deps && o in heap && k in heap[o]
      modifies this`deps, this`dom, this`trace
      ensures Valid()
      ensures deps == Reset(old(deps), Reach(heap, rank, heap[o][k]))
      ensures dom == Refreshed(old(dom), Select(watchers, old(deps)[Prop(o, k)]), Data())
      ensures trace == old(trace) + old(deps)[Prop(o, k)]
    {
      ghost var deps0 := deps;
      NotReached(heap, rank, o, k);
      Observe(heap[o][k]);
      assert deps[Prop(o, k)] == deps0[Prop(o, k)];
      CoherentReset(deps0, watchers, root, proxied, Reach(heap, rank, heap[o][k]));
      Notify(Prop(o, k));
    }

    /** The bare store into `o[k]`, with `newRank` witnessing that the heap stays acyclic. */
    method Assign(o: nat, k: string, v: Value, ghost newRank: map<nat, nat>)
      requires Valid() && o in heap && (v.Ref? ==> v.obj in heap)
      requires Ranked(heap[o := heap[o][k := v]], newRank)
      modifies this`heap, this`rank
      ensures Valid()
      ensures heap == old(heap)[o := old(heap)[o][k := v]] && rank == newRank
    {
      ghost var heap0 := heap;
      heap := heap[o := heap[o][k := v]];
      rank := newRank;
      DepsWfGrow(deps, heap0, heap, |watchers|, |watchers|);
    }

    /** `Dep.notify`: call `update` on each watcher of p's dep, in subscription order. */
    method Notify(p: Prop)
      requires Valid() && p in deps
      modifies this`dom, this`trace, this`deps
      ensures Valid()
      ensures deps == old(deps)
      ensures dom == Refreshed(old(dom), Select(watchers, deps[p]), Data())
      ensures trace == old(trace) + deps[p]
    {
      var subs := deps[p];
      ghost var ws := Select(watchers, subs);
      var i := 0;
      while i < |subs|
        invariant 0 <= i <= |subs|
        invariant Valid() && deps == old(deps)
        invariant dom.Keys == old(dom).Keys
        invariant dom == Refreshed(old(dom), ws[..i], Data())
        invariant trace == old(trace) + subs[..i]
      {
        TakeSnoc(ws, i);
        AppendSnoc(old(trace), subs, i);
        Update(subs[i]);
        i := i + 1;
      }
      TakeAll(ws);
      TakeAll(subs);
    }

    /** `Watcher.update`: re-read the watcher's key and re-run its updater. */
    method Update(w: nat)
      requires Valid() && w < |watchers|
      modifies this`dom, this`trace, this`deps
      ensures Valid() && deps == old(deps)
      ensures var x := watchers[w];
              dom == old(dom)[x.node := Updated(old(dom)[x.node], x.dir, Lookup(Data(), x.key), x.key)]
      ensures trace == old(trace) + [w]
    {
      var x := watchers[w];
      var v := Get(x.key);
      ApplyUpdater(x.node, x.dir, v, x.key);
      trace := trace + [w];
    }

    /** One run of the `text`, `html`, `if` or `model` updater on a node. */
    method ApplyUpdater(node: nat, dir: Dir, v: Value, exp: string)
      requires Wf() && node in dom
      modifies this`dom
      ensures Wf() && (old(Valid()) ==> Valid()) && dom.Keys == old(dom).Keys
      ensures dom == old(dom)[node := Updated(old(dom)[node], dir, v, exp)]
    {
      dom := dom[node := Updated(dom[node], dir, v, exp)];
    }

    /** `addEventListener` on a node. */
    method Listen(node: nat, l: Listener)
      requires Wf() && node in dom
      modifies this`dom
      ensures Wf() && (old(Valid()) ==> Valid()) && dom.Keys == old(dom).Keys
      ensures dom == old(dom)[node := old(dom)[node].(listeners := old(dom)[node].listeners + [l])]
    {
      dom := dom[node := dom[node].(listeners := dom[node].listeners + [l])];
    }

    // -- Watchers

    /** `new Watcher(vm, key, updateFn)`: record it, set `Dep.target` to it, read
        `vm[key]` so that it lands in the dep of `$data[key]`, then clear `Dep.target`. */
    method NewWatcher(key: string, node: nat, dir: Dir) returns (w: nat)
      requires Valid() && node in dom
      modifies this`watchers, this`target, this`deps
      ensures Valid()
      ensures w == old(|watchers|) && watchers == old(watchers) + [Watcher(key, node, dir)]
      ensures deps == Subscribed(old(deps), Data(), key, w)
    {
      w := |watchers|;
      ghost var deps0, watchers0 := deps, watchers;
      watchers := watchers + [Watcher(key, node, dir)];
      DepsWfGrow(deps, heap, heap, w, w + 1);
      target := Some(w);
      var _ := Get(key);
      CoherentSubscribed(deps0, watchers0, Data(), key, Watcher(key, node, dir));
      target := None;
    }

    // -- The proxy

    /** `proxy(vm)`: every key of `$data` becomes a key of the view model that
        reads and writes `$data[key]`. */
    method Proxy()
      requires Valid()
      modifies this`proxied
      ensures Valid()
      ensures proxied == old(proxied) + heap[root].Keys
      ensures forall key :: key in heap[root] ==> Lookup(Data(), key) == heap[root][key]
    {
      CoherentWider(deps, watchers, root, proxied, heap[root].Keys);
      proxied := proxied + heap[root].Keys;
    }

    /** Reading `vm[key]`. */
    method Get(key: string) returns (v: Value)
      requires Wf()
      modifies this`deps
      ensures Wf() && (old(Valid()) ==> Valid())
      ensures v == Lookup(Data(), key)
      ensures deps == if key in proxied then Collected(old(deps), Prop(root, key), target) else old(deps)
    {
      if key in proxied {
        v := GetProp(root, key);
      } else {
        v := if key in loose then loose[key] else Undefined;
      }
    }

    /** Writing `vm[key] = v`. */
    method Set(key: string, v: Value, ghost newRank: map<nat, nat>)
      requires Valid() && (v.Ref? ==> v.obj in heap)
      requires key in proxied ==> Ranked(heap[root := heap[root][key := v]], newRank)
      modifies this`heap, this`rank, this`deps, this`dom, this`trace, this`loose
      ensures Valid()
      ensures Lookup(Data(), key) == v
      ensures key in proxied ==> Wrote(root, key, v, old(dom)) && loose == old(loose)
      ensures key !in proxied ==>
                && loose == old(loose)[key := v]
                && heap == old(heap) && deps == old(deps) && dom == old(dom) && trace == old(trace)
    {
      if key in proxied {
        SetProp(root, key, v, newRank);
      } else {
        loose := loose[key := v];
      }
    }

    /** An `input` event on a node the model updater bound to `exp`: the browser
        stores the typed text in the node's value, then the listener runs
        `vm[exp] = node.value`. */
    method WriteBackInput(node: nat, exp: string, typed: string)
      requires Valid() && node in dom
      modifies this`heap, this`rank, this`deps, this`dom, this`trace, this`loose
      ensures Valid()
      ensures Lookup(Data(), exp) == Str(typed)
      ensures var page := old(dom)[node := old(dom)[node].(value := typed)];
              exp in proxied ==> Wrote(root, exp, Str(typed), page) && loose == old(loose)
      ensures var page := old(dom)[node := old(dom)[node].(value := typed)];
              exp !in proxied ==>
                && loose == old(loose)[exp := Str(typed)]
                && heap == old(heap) && deps == old(deps) && dom == page && trace == old(trace)
    {
      dom := dom[node := dom[node].(value := typed)];
      if exp in proxied {
        assert Ranked(heap[root := heap[root][exp := Str(typed)]], rank);
      }
      Set(exp, Str(typed), rank);
    }
  }
}
