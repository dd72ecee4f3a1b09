/** The doubly-linked token list (`struct token`, `struct token_list`). */
module TokenLists {
  import opened Tokens

  /** The null pointer. */
  const Nil: int := -1

  /** The node at position k of the list, or Nil past its end. */
  function NodeAt(order: seq<nat>, k: int): (n: int)
    requires 0 <= k
    ensures n == Nil <==> k >= |order|
  {
    if k < |order| then order[k] else Nil
  }

  // The invariants below quantify over positions through per-position predicates,
  // so that a fact about one position is drawn only where a proof names it.

  /** The node at position k lives in the arena `tok` and holds the k-th token. */
  ghost predicate HoldsAt(tok: seq<Token>, order: seq<nat>, contents: seq<Token>, k: int)
    requires 0 <= k < |order| && |contents| == |order|
  {
    order[k] < |tok| && contents[k] == tok[order[k]]
  }

  /** `contents` lists the tokens the nodes of `order` hold in the arena `tok`. */
  ghost predicate Holds(tok: seq<Token>, order: seq<nat>, contents: seq<Token>)
  {
    && |contents| == |order|
    && forall k :: 0 <= k < |order| ==> HoldsAt(tok, order, contents, k)
  }

  /** Positions j and k hold different nodes. */
  ghost predicate Apart(order: seq<nat>, j: int, k: int)
    requires 0 <= j < |order| && 0 <= k < |order|
  {
    order[j] != order[k]
  }

  /** No node occurs twice in a chain. */
  ghost predicate Distinct(order: seq<nat>)
  {
    forall j, k :: 0 <= j < k < |order| ==> Apart(order, j, k)
  }

  /** The node at position k is one of the `size` nodes of the arena and its links
      lead to its neighbours in `order`, Nil past either end. */
  ghost predicate LinkedAt(size: nat, next: seq<int>, prev: seq<int>, order: seq<nat>, k: int)
    requires 0 <= k < |order| && |next| == size && |prev| == size
  {
    && order[k] < size
    && next[order[k]] == NodeAt(order, k + 1)
    && prev[order[k]] == (if k == 0 then Nil else order[k - 1])
  }

  /** The links of an arena of `size` nodes chain the distinct nodes of `order`
      from `first` to `last`. */
  ghost predicate Chain(size: nat, next: seq<int>, prev: seq<int>, first: int, last: int, order: seq<nat>)
  {
    && |next| == size
    && |prev| == size
    && Distinct(order)
    && first == NodeAt(order, 0)
    && last == (if order == [] then Nil else order[|order| - 1])
    && forall k :: 0 <= k < |order| ==> LinkedAt(size, next, prev, order, k)
  }

  /** Removing position p keeps the remaining nodes distinct. */
  lemma DistinctRemove(order: seq<nat>, p: nat)
    requires Distinct(order) && p < |order|
    ensures Distinct(order[..p] + order[p + 1..])
  {
    var o' := order[..p] + order[p + 1..];
    forall j, k | 0 <= j < k < |o'|
      ensures Apart(o', j, k)
    {
      var j', k' := if j < p then j else j + 1, if k < p then k else k + 1;
      assert Apart(order, j', k');
      assert o'[j] == order[j'] && o'[k] == order[k'];
    }
  }

  /** A link sequence with the entry of node `at` set to `to`; Nil names no node,
      and then nothing changes. */
  function Relinked(links: seq<int>, at: int, to: int): (r: seq<int>)
    requires at == Nil || 0 <= at < |links|
    ensures |r| == |links|
    ensures forall m :: 0 <= m < |links| && m != at ==> r[m] == links[m]
  {
    if at != Nil then links[at := to] else links
  }

  /** After the node at p is unlinked, position k of the shorter order is linked. */
  lemma LinkedRemove(size: nat, next: seq<int>, prev: seq<int>, first: int, last: int, order: seq<nat>, p: nat, nx: int, pv: int, k: nat)
    requires Chain(size, next, prev, first, last, order) && p < |order| && k + 1 < |order|
    requires LinkedAt(size, next, prev, order, p)
    requires nx == next[order[p]] && pv == prev[order[p]]
    requires (nx == Nil || 0 <= nx < size) && (pv == Nil || 0 <= pv < size)
    ensures LinkedAt(size, Relinked(next, pv, nx), Relinked(prev, nx, pv), order[..p] + order[p + 1..], k)
  {
    var next', prev' := Relinked(next, pv, nx), Relinked(prev, nx, pv);
    var o' := order[..p] + order[p + 1..];
    if k < p {
      assert o'[k] == order[k];
      assert LinkedAt(size, next, prev, order, k);
      if k + 1 < p {
        assert o'[k + 1] == order[k + 1];
        assert Apart(order, k, p - 1);
      }
      if p + 1 < |order| {
        assert Apart(order, k, p + 1);
      }
      if 0 < k {
        assert o'[k - 1] == order[k - 1];
      }
    } else {
      assert o'[k] == order[k + 1];
      assert LinkedAt(size, next, prev, order, k + 1);
      if p > 0 {
        assert Apart(order, p - 1, k + 1);
      }
      if k > p {
        assert Apart(order, p + 1, k + 1);
        assert o'[k - 1] == order[k];
      }
      if k + 1 < |o'| {
        assert o'[k + 1] == order[k + 2];
      }
    }
  }

  /** `token_delete` applied to the node at position p leaves a chain of the
      remaining nodes: its neighbours are linked to each other, and `first` and
      `last` move off it. */
  lemma ChainRemove(size: nat, next: seq<int>, prev: seq<int>, first: int, last: int, order: seq<nat>, p: nat)
    requires Chain(size, next, prev, first, last, order) && p < |order|
    ensures order[p] < size
    ensures var n := order[p];
            var nx, pv := next[n], prev[n];
            && (nx != Nil ==> 0 <= nx < size)
            && (pv != Nil ==> 0 <= pv < size)
            && Chain(size, Relinked(next, pv, nx), Relinked(prev, nx, pv),
                     if first == n then nx else first,
                     if last == n then pv else last,
                     order[..p] + order[p + 1..])
  {
    var n := order[p];
    assert LinkedAt(size, next, prev, order, p);
    var nx, pv := next[n], prev[n];
    if p + 1 < |order| {
      assert LinkedAt(size, next, prev, order, p + 1);
    }
    if p > 0 {
      assert LinkedAt(size, next, prev, order, p - 1);
    }
    var o' := order[..p] + order[p + 1..];
    DistinctRemove(order, p);
    forall k | 0 <= k < |o'|
      ensures LinkedAt(size, Relinked(next, pv, nx), Relinked(prev, nx, pv), o', k)
    {
      LinkedRemove(size, next, prev, first, last, order, p, nx, pv, k);
    }
    if p > 0 {
      assert Apart(order, 0, p);
      assert o'[0] == order[0];
    } else if |o'| > 0 {
      assert o'[0] == order[1];
    }
    if p + 1 < |order| {
      assert Apart(order, p, |order| - 1);
      assert o'[|o'| - 1] == order[|order| - 1];
    } else if |o'| > 0 {
      assert o'[|o'| - 1] == order[p - 1];
    }
  }

  /** `token_append` of a fresh node `size` keeps a chain, with the new node last. */
  lemma ChainAppend(size: nat, next: seq<int>, prev: seq<int>, first: int, last: int, order: seq<nat>)
    requires Chain(size, next, prev, first, last, order)
    ensures last == Nil || 0 <= last < size
    ensures Chain(size + 1, (if last == Nil then next else next[last := size]) + [Nil], prev + [last],
                  if first == Nil then size else first, size, order + [size])
  {
    if last != Nil {
      assert LinkedAt(size, next, prev, order, |order| - 1);
    }
    var size' := size + 1;
    var next' := (if last == Nil then next else next[last := size]) + [Nil];
    var prev' := prev + [last];
    var o' := order + [size];
    forall j, k | 0 <= j < k < |o'|
      ensures Apart(o', j, k)
    {
      assert LinkedAt(size, next, prev, order, j);
      if k < |order| {
        assert Apart(order, j, k);
      }
    }
    forall k | 0 <= k < |o'|
      ensures LinkedAt(size', next', prev', o', k)
    {
      if k < |order| {
        assert LinkedAt(size, next, prev, order, k);
        assert o'[k] == order[k];
        if k + 1 < |order| {
          assert Apart(order, k, |order| - 1);
        }
      }
    }
  }

  /** Removing the node at position p removes its token from the contents. */
  lemma HoldsRemove(tok: seq<Token>, order: seq<nat>, contents: seq<Token>, p: nat)
    requires Holds(tok, order, contents) && p < |order|
    ensures Holds(tok, order[..p] + order[p + 1..], contents[..p] + contents[p + 1..])
  {
    var o', c' := order[..p] + order[p + 1..], contents[..p] + contents[p + 1..];
    forall k | 0 <= k < |o'|
      ensures HoldsAt(tok, o', c', k)
    {
      var k' := if k < p then k else k + 1;
      assert HoldsAt(tok, order, contents, k');
      assert o'[k] == order[k'] && c'[k] == contents[k'];
    }
  }

  /** A fresh slot holding t, linked at the end, appends t to the contents. */
  lemma HoldsAppend(tok: seq<Token>, order: seq<nat>, contents: seq<Token>, t: Token)
    requires Holds(tok, order, contents)
    ensures Holds(tok + [t], order + [|tok|], contents + [t])
  {
    var o', c' := order + [|tok|], contents + [t];
    forall k | 0 <= k < |o'|
      ensures HoldsAt(tok + [t], o', c', k)
    {
      if k < |order| {
        assert HoldsAt(tok, order, contents, k);
        assert o'[k] == order[k] && c'[k] == contents[k];
      }
    }
  }

  /** Overwriting the slot of the node at position p changes that token only. */
  lemma HoldsUpdate(tok: seq<Token>, order: seq<nat>, contents: seq<Token>, p: nat, t: Token)
    requires Holds(tok, order, contents) && Distinct(order) && p < |order|
    ensures order[p] < |tok|
    ensures Holds(tok[order[p] := t], order, contents[p := t])
  {
    assert HoldsAt(tok, order, contents, p);
    var tok', contents' := tok[order[p] := t], contents[p := t];
    forall k | 0 <= k < |order|
      ensures HoldsAt(tok', order, contents', k)
    {
      assert HoldsAt(tok, order, contents, k);
      if k < p {
        assert Apart(order, k, p);
      } else if p < k {
        assert Apart(order, p, k);
      }
    }
  }

  /** Nodes live in an arena: node n holds tok[n] and its links next[n] and prev[n].
      Allocation appends a slot; a freed node keeps its slot but leaves the chain.
      The ghost `order` lists the linked nodes from `first` to `last` and
      `contents` the tokens they hold: the list as the reducer sees it. */
  class TokenList {
    var tok: seq<Token>
    var next: seq<int>
    var prev: seq<int>
    var first: int
    var last: int
    ghost var order: seq<nat>       // the nodes of the list, first to last
    ghost var contents: seq<Token>  // the tokens they hold

    ghost predicate Valid()
      reads this
    {
      Chain(|tok|, next, prev, first, last, order) && Holds(tok, order, contents)
    }

    /** `struct token_list token_list = {.first = NULL, .last = NULL}` */
    constructor ()
      ensures Valid() && contents == [] && order == []
      ensures first == Nil && last == Nil
    {
      tok, next, prev := [], [], [];
      first, last := Nil, Nil;
      order, contents := [], [];
    }

    /** `token_append`: a new node holding t becomes the tail. */
    method Append(t: Token)
      requires Valid()
      modifies this
      ensures Valid()
      ensures contents == old(contents) + [t]
      ensures order == old(order) + [old(|tok|)]
      ensures |tok| == old(|tok|) + 1
      ensures last == old(|tok|) && tok[last] == t && next[last] == Nil
      ensures prev[last] == old(last)
      ensures old(first) != Nil ==> first == old(first)
      ensures old(first) == Nil ==> first == last
    {
      ChainAppend(|tok|, next, prev, first, last, order);
      HoldsAppend(tok, order, contents, t);
      var n := |tok|;
      if first == Nil {
        tok, next, prev := tok + [t], next + [Nil], prev + [Nil];
        first := n;
        last := first;
      } else {
        var oldLast := last;
        tok, next, prev := tok + [t], next[oldLast := n] + [Nil], prev + [oldLast];
        last := n;
      }
      order, contents := order + [n], contents + [t];
    }

    /** `token_delete`: node n, at position p, leaves the chain. Its neighbours are
        linked to each other and `first`/`last` move off it; its slot is kept. */
    method Delete(n: int, ghost p: nat)
      requires Valid() && p < |order| && order[p] == n
      modifies this
      ensures Valid()
      ensures order == old(order)[..p] + old(order)[p + 1..]
      ensures contents == old(contents)[..p] + old(contents)[p + 1..]
      ensures tok == old(tok)
    {
      ChainRemove(|tok|, next, prev, first, last, order, p);
      HoldsRemove(tok, order, contents, p);
      var nx, pv := next[n], prev[n];
      if nx != Nil {
        prev := prev[nx := pv];
      }
      if pv != Nil {
        next := next[pv := nx];
      }
      if first == n {
        first := nx;
      }
      if last == n {
        last := pv;
      }
      order, contents := order[..p] + order[p + 1..], contents[..p] + contents[p + 1..];
    }

    /** Stores v as the number of node n, at position p (`data.number = v`). */
    method SetValue(n: int, ghost p: nat, v: real)
      requires Valid() && p < |order| && order[p] == n
      modifies this
      ensures Valid()
      ensures contents == old(contents)[p := Number(v)]
      ensures order == old(order) && next == old(next) && prev == old(prev)
      ensures first == old(first) && last == old(last)
    {
      HoldsUpdate(tok, order, contents, p, Number(v));
      tok := tok[n := Number(v)];
      contents := contents[p := Number(v)];
    }
  }

  /** Reading the list through its links: the node at position p holds the p-th
      token, and its links lead to the nodes at positions p+1 and p-1. */
  lemma Links(list: TokenList, p: nat)
    requires list.Valid() && p < |list.order|
    ensures list.order[p] < |list.tok| == |list.next| == |list.prev|
    ensures list.tok[list.order[p]] == list.contents[p]
    ensures list.next[list.order[p]] == NodeAt(list.order, p + 1)
    ensures list.prev[list.order[p]] == (if p == 0 then Nil else list.order[p - 1])
  {
    assert HoldsAt(list.tok, list.order, list.contents, p);
    assert LinkedAt(|list.tok|, list.next, list.prev, list.order, p);
  }

  /** Two positions hold the same node only if they are the same position. */
  lemma SameNode(list: TokenList, j: nat, k: nat)
    requires list.Valid() && j < |list.order| && k < |list.order|
    ensures list.order[j] == list.order[k] <==> j == k
  {
    if j < k {
      assert Apart(list.order, j, k);
    } else if k < j {
      assert Apart(list.order, k, j);
    }
  }

  /** `first == last` names a node exactly when the list holds one token. */
  lemma SingleNode(list: TokenList)
    requires list.Valid()
    ensures list.first != Nil && list.first == list.last <==> |list.order| == 1
  {
    if |list.order| > 1 {
      SameNode(list, 0, |list.order| - 1);
    }
  }
}
