/** The static template tree the binder walks, the classification of nodes and
    attribute names, the interpolation pattern, and the traversal order. */
module Template {
  import opened Values
  import opened Dom

  datatype Attr = Attr(name: string, value: string)

  /** A node of the template: its identity in the page, its `nodeType`
      (1 for elements, 3 for text), its text content, its attributes in
      document order and its child nodes in document order. `text` is the
      content the binder reads when it visits the node; the updaters write the
      page's copy (`NodeState.text` under the same id). The two are not tied:
      a text node is visited once, before its own updater writes it, so its
      content at visit time is the template's, except below an element whose
      `m-text` or `m-html` replaced its children. */
  datatype Node = Node(id: nat, nodeType: int, text: string, attrs: seq<Attr>, children: seq<Node>)

  // ---------------------------------------------------------------------------
  // Node and attribute classification

  predicate IsElement(n: Node) {
    n.nodeType == 1
  }

  predicate StartsWith(s: string, prefix: string) {
    |prefix| <= |s| && s[..|prefix|] == prefix
  }

  /** `attrName.indexOf("m-") === 0` */
  predicate IsDirective(name: string) {
    StartsWith(name, "m-")
  }

  /** `attrName.startsWith("@")` */
  predicate IsEventDirective(name: string) {
    StartsWith(name, "@")
  }

  /** The closed dispatch that replaces `this[dir + "Loader"]`: exactly the four
      keywords that have a loader map to a directive. */
  function DirOf(keyword: string): Option<Dir> {
    if keyword == "text" then Some(Text)
    else if keyword == "html" then Some(Html)
    else if keyword == "model" then Some(Model)
    else if keyword == "if" then Some(If)
    else None
  }

  function Keyword(d: Dir): string {
    match d
    case Text => "text"
    case Html => "html"
    case Model => "model"
    case If => "if"
  }

  /** The dispatch recognises exactly the four keywords, and each maps back to itself. */
  lemma DirOfRecognises(keyword: string)
    ensures DirOf(keyword).Some? <==> keyword in {"text", "html", "model", "if"}
    ensures DirOf(keyword).Some? ==> Keyword(DirOf(keyword).value) == keyword
  {
  }

  lemma KeywordDispatches(d: Dir)
    ensures DirOf(Keyword(d)) == Some(d)
  {
  }

  /** The directive an attribute installs, if any: a name starting with "m-"
      whose remainder is one of the four keywords. */
  function DirectiveOf(a: Attr): Option<Dir> {
    if IsDirective(a.name) then DirOf(a.name[2..]) else None
  }

  /** An attribute installs a directive exactly when its name is "m-" followed by
      one of the four keywords. */
  lemma DirectiveOfRecognises(a: Attr)
    ensures DirectiveOf(a).Some? <==> IsDirective(a.name) && a.name[2..] in {"text", "html", "model", "if"}
    ensures DirectiveOf(a).Some? ==> a.name == "m-" + Keyword(DirectiveOf(a).value)
  {
    if IsDirective(a.name) {
      DirOfRecognises(a.name[2..]);
      assert a.name == a.name[..2] + a.name[2..];
    }
  }

  // ---------------------------------------------------------------------------
  // The interpolation pattern /\{\{(.*)\}\}/ and its first capture group

  /** The characters `.` does not match. */
  predicate IsLineTerminator(c: char) {
    c == '\n' || c == '\r' || c == '\U{2028}' || c == '\U{2029}'
  }

  predicate OpensAt(t: string, i: int) {
    0 <= i && i + 2 <= |t| && t[i] == '{' && t[i + 1] == '{'
  }

  predicate ClosesAt(t: string, j: int) {
    0 <= j && j + 2 <= |t| && t[j] == '}' && t[j + 1] == '}'
  }

  /** No line terminator in t[lo..hi]. */
  predicate OnOneLine(t: string, lo: int, hi: int)
    requires 0 <= lo <= hi <= |t|
  {
    forall k :: lo <= k < hi ==> !IsLineTerminator(t[k])
  }

  /** The pattern matches t[i..j + 2], with "{{" at i and "}}" at j. */
  ghost predicate MatchAt(t: string, i: int, j: int) {
    OpensAt(t, i) && i + 2 <= j && ClosesAt(t, j) && OnOneLine(t, i + 2, j)
  }

  /** The match a backtracking regular expression reports: the leftmost start,
      and for that start the longest `.*` (the greatest j). */
  ghost predicate IsRegexMatch(t: string, i: int, j: int) {
    MatchAt(t, i, j)
    && (forall i', j' :: 0 <= i' < i ==> !MatchAt(t, i', j'))
    && (forall j' :: MatchAt(t, i, j') ==> j' <= j)
  }

  /** Scans from k while the line lasts, remembering the last "}}" seen. */
  function LastClose(t: string, k: nat, best: Option<nat>): (r: Option<nat>)
    ensures r.Some? ==> r == best || (k <= r.value && r.value + 2 <= |t|)
    decreases |t| - k
  {
    if k + 2 > |t| || IsLineTerminator(t[k]) then best
    else LastClose(t, k + 1, if ClosesAt(t, k) then Some(k) else best)
  }

  function Search(t: string, i: nat): Option<string>
    decreases |t| - i
  {
    if i + 2 > |t| then None
    else if OpensAt(t, i) then
      match LastClose(t, i + 2, None)
      case Some(j) => Some(t[i + 2..j])
      case None => Search(t, i + 1)
    else Search(t, i + 1)
  }

  /** `RegExp.$1` after a successful `/\{\{(.*)\}\}/.test(t)`, or None when the test fails. */
  function Capture(t: string): Option<string> {
    Search(t, 0)
  }

  /** `isInter`: a text node whose text matches the interpolation pattern. */
  predicate IsInter(n: Node) {
    n.nodeType == 3 && Capture(n.text).Some?
  }

  lemma {:induction false} LastCloseFinds(t: string, i: nat, k: nat, best: Option<nat>)
    requires i <= k <= |t| && OnOneLine(t, i, k)
    requires best.Some? ==> i <= best.value < k && ClosesAt(t, best.value)
    requires forall j :: i <= j < k && ClosesAt(t, j) ==> best.Some? && j <= best.value
    ensures var r := LastClose(t, k, best);
            && (r.Some? ==> i <= r.value <= |t| && ClosesAt(t, r.value) && OnOneLine(t, i, r.value))
            && (forall j :: i <= j <= |t| && ClosesAt(t, j) && OnOneLine(t, i, j) ==> r.Some? && j <= r.value)
    decreases |t| - k
  {
    if k + 2 > |t| || IsLineTerminator(t[k]) {
      forall j | i <= j <= |t| && ClosesAt(t, j) && OnOneLine(t, i, j)
        ensures best.Some? && j <= best.value
      {
        if j >= k {
          assert false;
        }
      }
    } else {
      var best' := if ClosesAt(t, k) then Some(k) else best;
      assert OnOneLine(t, i, k + 1);
      LastCloseFinds(t, i, k + 1, best');
    }
  }

  lemma {:induction false} SearchFinds(t: string, i: nat)
    requires forall i', j' :: 0 <= i' < i ==> !MatchAt(t, i', j')
    ensures Search(t, i).Some? <==> exists i', j' :: MatchAt(t, i', j')
    ensures Search(t, i).Some? ==>
              exists i', j' :: IsRegexMatch(t, i', j') && Search(t, i).value == t[i' + 2..j']
    decreases |t| - i
  {
    if i + 2 > |t| {
      forall i', j' | MatchAt(t, i', j') ensures false {
      }
    } else if OpensAt(t, i) {
      assert OnOneLine(t, i + 2, i + 2);
      LastCloseFinds(t, i + 2, i + 2, None);
      match LastClose(t, i + 2, None)
      case Some(j) =>
        assert MatchAt(t, i, j);
        assert IsRegexMatch(t, i, j);
      case None =>
        forall j' | MatchAt(t, i, j') ensures false {
        }
        SearchFinds(t, i + 1);
    } else {
      forall j' | MatchAt(t, i, j') ensures false {
      }
      SearchFinds(t, i + 1);
    }
  }

  /** The capture is defined exactly when the pattern matches somewhere, and then
      it is the text between the leftmost "{{" that has a "}}" later on its line
      and the last such "}}" -- untrimmed. */
  lemma CaptureIsRegexGroup(t: string)
    ensures Capture(t).Some? <==> exists i, j :: MatchAt(t, i, j)
    ensures Capture(t).Some? ==> exists i, j :: IsRegexMatch(t, i, j) && Capture(t).value == t[i + 2..j]
  {
    SearchFinds(t, 0);
  }

  /** On text without line terminators the capture is everything between the
      first "{{" and the last "}}", when the "}}" starts after the "{{" ends. */
  lemma SingleLineCapture(t: string, i: nat, j: nat)
    requires forall k :: 0 <= k < |t| ==> !IsLineTerminator(t[k])
    requires OpensAt(t, i) && forall i' :: 0 <= i' < i ==> !OpensAt(t, i')
    requires ClosesAt(t, j) && forall j' :: j < j' ==> !ClosesAt(t, j')
    requires i + 2 <= j
    ensures Capture(t) == Some(t[i + 2..j])
  {
    assert MatchAt(t, i, j);
    CaptureIsRegexGroup(t);
    var i1, j1 :| IsRegexMatch(t, i1, j1) && Capture(t).value == t[i1 + 2..j1];
    assert i1 == i;
    assert j1 == j;
  }
}

/** The order in which the binder visits a template: depth first, parent before
    children, siblings left to right, never the root it starts from. */
module Traversal {
  import opened Template

  /** The nodes `compile(n)` visits, in the order it visits them: every child in
      document order, each immediately followed by its own descendants. */
  function Descendants(n: Node): seq<Node>
    decreases n, 1
  {
    Forest(n.children)
  }

  /** The pre-order listing of a sequence of sibling subtrees. */
  function Forest(cs: seq<Node>): seq<Node>
    decreases cs, 0
  {
    if cs == [] then []
    else Forest(cs[..|cs| - 1]) + [cs[|cs| - 1]] + Descendants(cs[|cs| - 1])
  }

  /** The number of nodes in the tree rooted at n. */
  function Size(n: Node): nat
    decreases n, 1
  {
    1 + ForestSize(n.children)
  }

  function ForestSize(cs: seq<Node>): nat
    decreases cs, 0
  {
    if cs == [] then 0 else ForestSize(cs[..|cs| - 1]) + Size(cs[|cs| - 1])
  }

  lemma {:induction false} ForestConcat(a: seq<Node>, b: seq<Node>)
    ensures Forest(a + b) == Forest(a) + Forest(b)
    decreases |b|
  {
    if b == [] {
      assert a + b == a;
    } else {
      var b' := b[..|b| - 1];
      assert (a + b)[..|a + b| - 1] == a + b';
      ForestConcat(a, b');
    }
  }

  lemma ForestSnoc(cs: seq<Node>, k: nat)
    requires k < |cs|
    ensures Forest(cs[..k + 1]) == Forest(cs[..k]) + [cs[k]] + Descendants(cs[k])
  {
    assert cs[..k + 1][..k] == cs[..k];
  }

  lemma ForestCut(cs: seq<Node>, m: nat)
    requires m <= |cs|
    ensures Forest(cs) == Forest(cs[..m]) + Forest(cs[m..])
  {
    assert cs == cs[..m] + cs[m..];
    ForestConcat(cs[..m], cs[m..]);
  }

  /** Sibling order: the listing of a forest is the listing of the siblings before
      child k, then child k, then child k's own subtree, then the later siblings. */
  lemma ForestSplit(cs: seq<Node>, k: nat)
    requires k < |cs|
    ensures Forest(cs) == Forest(cs[..k]) + [cs[k]] + Descendants(cs[k]) + Forest(cs[k + 1..])
  {
    ForestSnoc(cs, k);
    ForestCut(cs, k + 1);
  }

  /** Pre-order: every listed node is immediately followed by exactly its own descendants. */
  lemma {:induction false} DescendantsPreOrder(n: Node, i: nat)
    requires i < |Descendants(n)|
    ensures var d := Descendants(n);
            i + 1 + |Descendants(d[i])| <= |d| && d[i + 1..i + 1 + |Descendants(d[i])|] == Descendants(d[i])
    decreases n, 1
  {
    ForestPreOrder(n.children, i);
  }

  lemma {:induction false} ForestPreOrder(cs: seq<Node>, i: nat)
    requires i < |Forest(cs)|
    ensures var f := Forest(cs);
            i + 1 + |Descendants(f[i])| <= |f| && f[i + 1..i + 1 + |Descendants(f[i])|] == Descendants(f[i])
    decreases cs, 0
  {
    var init, last := cs[..|cs| - 1], cs[|cs| - 1];
    var f0, d := Forest(init), Descendants(last);
    var f := Forest(cs);
    assert f == f0 + [last] + d;
    if i < |f0| {
      ForestPreOrder(init, i);
      assert f[i] == f0[i];
      assert f[i + 1..i + 1 + |Descendants(f[i])|] == f0[i + 1..i + 1 + |Descendants(f0[i])|];
    } else if i == |f0| {
      assert f[i] == last;
      assert f[i + 1..i + 1 + |d|] == d;
    } else {
      var j := i - |f0| - 1;
      DescendantsPreOrder(last, j);
      assert f[i] == d[j];
      assert f[i + 1..i + 1 + |Descendants(d[j])|] == d[j + 1..j + 1 + |Descendants(d[j])|];
    }
  }

  /** `compile` never processes the node it is called on. */
  lemma RootNotVisited(n: Node)
    ensures n !in Descendants(n)
  {
    if n in Descendants(n) {
      var i :| 0 <= i < |Descendants(n)| && Descendants(n)[i] == n;
      DescendantsPreOrder(n, i);
      assert false;
    }
  }

  /** Every child of the root or of a visited node is visited. */
  lemma ChildrenVisited(n: Node, d: Node, k: nat)
    requires d == n || d in Descendants(n)
    requires k < |d.children|
    ensures d.children[k] in Descendants(d) && d.children[k] in Descendants(n)
  {
    ForestSplit(d.children, k);
    if d != n {
      var i :| 0 <= i < |Descendants(n)| && Descendants(n)[i] == d;
      DescendantsPreOrder(n, i);
      assert Descendants(d) == Descendants(n)[i + 1..i + 1 + |Descendants(d)|];
    }
  }

  /** Every node of the tree below the root is listed, once: the listing is as long as the tree minus its root. */
  lemma {:induction false} DescendantsCount(n: Node)
    ensures |Descendants(n)| == Size(n) - 1
    decreases n, 1
  {
    ForestCount(n.children);
  }

  lemma {:induction false} ForestCount(cs: seq<Node>)
    ensures |Forest(cs)| == ForestSize(cs)
    decreases cs, 0
  {
    if cs != [] {
      ForestCount(cs[..|cs| - 1]);
      DescendantsCount(cs[|cs| - 1]);
    }
  }
}
