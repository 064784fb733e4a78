/** The parse tree as the calculator sees it through tree-sitter's node
    interface, and the syntax validator `collect_error_nodes`. The parsing
    engine itself is outside the model: trees are inputs. */
module ParseTree {
  import opened Wrappers
  import opened Errors

  /** A node: its kind name, all its children in order (named and
      anonymous), the child index behind each field name, its source text
      (`None` when the bytes are not valid UTF-8) and its byte span. */
  datatype Node = Node(
    kind: string,
    children: seq<Node>,
    fields: map<string, nat>,
    text: Option<string>,
    span: Span)

  /** `Node::child(i)`. */
  function Child(n: Node, i: nat): (r: Option<Node>)
    ensures r.Some? <==> i < |n.children|
  {
    if i < |n.children| then Some(n.children[i]) else None
  }

  /** `Node::child_by_field_name`. */
  function ChildByFieldName(n: Node, name: string): (r: Option<Node>)
    ensures r.Some? ==> r.value in n.children
  {
    if name in n.fields && n.fields[name] < |n.children| then Some(n.children[n.fields[name]])
    else None
  }

  const ErrorKind: string := "ERROR"

  predicate IsError(n: Node) {
    n.kind == ErrorKind
  }

  /** All nodes of a tree in depth-first pre-order: a node, then each
      child's subtree from left to right. */
  function Preorder(n: Node): (r: seq<Node>)
    ensures |r| > 0 && r[0] == n
    decreases n, 1
  {
    [n] + PreorderAll(n.children)
  }

  function PreorderAll(ns: seq<Node>): seq<Node>
    decreases ns, 0
  {
    if |ns| == 0 then [] else Preorder(ns[0]) + PreorderAll(ns[1..])
  }

  /** The error nodes of a node sequence, in order. */
  function ErrorsOf(ns: seq<Node>): (r: seq<Node>)
    ensures forall m :: m in r ==> m in ns && IsError(m)
    ensures |r| <= |ns|
  {
    if |ns| == 0 then []
    else (if IsError(ns[0]) then [ns[0]] else []) + ErrorsOf(ns[1..])
  }

  lemma {:induction false} ErrorsOfAppend(a: seq<Node>, b: seq<Node>)
    ensures ErrorsOf(a + b) == ErrorsOf(a) + ErrorsOf(b)
  {
    if |a| > 0 {
      assert (a + b)[1..] == a[1..] + b;
      ErrorsOfAppend(a[1..], b);
    } else {
      assert a + b == b;
    }
  }

  lemma {:induction false} PreorderAllSnoc(ns: seq<Node>, n: Node)
    ensures PreorderAll(ns + [n]) == PreorderAll(ns) + Preorder(n)
  {
    if |ns| == 0 {
      assert ns + [n] == [n];
      assert [n][1..] == [];
    } else {
      assert (ns + [n])[1..] == ns[1..] + [n];
      PreorderAllSnoc(ns[1..], n);
    }
  }

  /** `collect_error_nodes`: appends to `errors` every error node of the
      tree, visiting a node before its children and the children left to
      right. */
  method CollectErrorNodes(node: Node, errors: seq<Node>) returns (out: seq<Node>)
    ensures out == errors + ErrorsOf(Preorder(node))
    decreases node
  {
    out := errors;
    if node.kind == ErrorKind {
      out := out + [node];
    }
    ghost var head: seq<Node> := if IsError(node) then [node] else [];
    ghost var start := out;
    assert start == errors + head;
    var i := 0;
    while i < |node.children|
      invariant 0 <= i <= |node.children|
      invariant out == start + ErrorsOf(PreorderAll(node.children[..i]))
    {
      var child := node.children[i];
      out := CollectErrorNodes(child, out);
      ChildrenStep(node.children, i);
      Associate(start, ErrorsOf(PreorderAll(node.children[..i])), ErrorsOf(Preorder(child)));
      i := i + 1;
    }
    assert node.children[..i] == node.children;
    HeadOfPreorder(node, head);
    Associate(errors, head, ErrorsOf(PreorderAll(node.children)));
  }

  lemma Associate(a: seq<Node>, b: seq<Node>, c: seq<Node>)
    ensures a + b + c == a + (b + c)
  {
  }

  lemma ChildrenStep(cs: seq<Node>, i: nat)
    requires i < |cs|
    ensures ErrorsOf(PreorderAll(cs[..i + 1])) == ErrorsOf(PreorderAll(cs[..i])) + ErrorsOf(Preorder(cs[i]))
  {
    assert cs[..i + 1] == cs[..i] + [cs[i]];
    PreorderAllSnoc(cs[..i], cs[i]);
    ErrorsOfAppend(PreorderAll(cs[..i]), Preorder(cs[i]));
  }

  lemma HeadOfPreorder(node: Node, head: seq<Node>)
    requires head == if IsError(node) then [node] else []
    ensures ErrorsOf(Preorder(node)) == head + ErrorsOf(PreorderAll(node.children))
  {
    ErrorsOfAppend([node], PreorderAll(node.children));
    assert ErrorsOf([node]) == head;
  }

  /** The error nodes of a tree in pre-order, the list the validator builds
      from an empty start. */
  function ErrorNodes(t: Node): seq<Node> {
    ErrorsOf(Preorder(t))
  }

  lemma {:induction false} ErrorsOfEmpty(ns: seq<Node>)
    ensures ErrorsOf(ns) == [] <==> forall m :: m in ns ==> !IsError(m)
  {
    if |ns| > 0 {
      ErrorsOfEmpty(ns[1..]);
      assert forall m :: m in ns ==> m == ns[0] || m in ns[1..];
    }
  }

  lemma {:induction false} ErrorsOfFirst(ns: seq<Node>)
    requires ErrorsOf(ns) != []
    ensures exists j :: (0 <= j < |ns| && ns[j] == ErrorsOf(ns)[0]
                         && IsError(ns[j]) && forall k :: 0 <= k < j ==> !IsError(ns[k]))
  {
    if !IsError(ns[0]) {
      ErrorsOfFirst(ns[1..]);
      var j :| 0 <= j < |ns[1..]| && ns[1..][j] == ErrorsOf(ns[1..])[0]
        && IsError(ns[1..][j]) && forall k :: 0 <= k < j ==> !IsError(ns[1..][k]);
      assert ns[j + 1] == ErrorsOf(ns)[0];
      forall k | 0 <= k < j + 1 ensures !IsError(ns[k]) {
        if k > 0 { assert ns[k] == ns[1..][k - 1]; }
      }
    } else {
      assert ns[0] == ErrorsOf(ns)[0];
    }
  }

  /** The validator finds nothing exactly when no node of the tree is an
      error node; otherwise its first entry is the first error node in
      pre-order, the one reported. */
  lemma ValidatorReportsFirstError(t: Node)
    ensures ErrorNodes(t) == [] <==> forall m :: m in Preorder(t) ==> !IsError(m)
    ensures ErrorNodes(t) != [] ==>
      exists j :: (0 <= j < |Preorder(t)| && Preorder(t)[j] == ErrorNodes(t)[0]
                   && IsError(Preorder(t)[j]) && forall k :: 0 <= k < j ==> !IsError(Preorder(t)[k]))
  {
    ErrorsOfEmpty(Preorder(t));
    if ErrorNodes(t) != [] {
      ErrorsOfFirst(Preorder(t));
    }
  }
}
