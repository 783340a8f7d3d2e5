/** kern/list.c: circular doubly linked lists through intrusive nodes, as sequence operations. A list is
    its head followed by its members. */
module List {
  import opened Common

  class Node {
    var next: Node?
    var prev: Node?

    constructor ()
      ensures next == null && prev == null
    {
      next, prev := null, null;
    }
  }

  function After(k: nat, n: nat): nat
    requires k < n
  {
    if k + 1 == n then 0 else k + 1
  }

  /** Node k of the ring and the one after it point at each other. */
  ghost predicate Joined(r: seq<Node>, k: nat)
    requires k < |r|
    reads r
  {
    r[k].next == r[After(k, |r|)] && r[After(k, |r|)].prev == r[k]
  }

  /** r is a ring: the head, then the members in order. */
  ghost predicate Ring(r: seq<Node>)
    reads r
  {
    r != [] && NoDup(r) && forall k :: 0 <= k < |r| ==> Joined(r, k)
  }

  /** list_init. */
  method Init(que: Node)
    modifies que
    ensures Ring([que])
  {
    que.prev := que;
    que.next := que;
  }

  method Empty(que: Node, ghost s: seq<Node>) returns (r: bool)
    requires Ring([que] + s)
    ensures r <==> s == []
  {
    assert Joined([que] + s, 0);
    r := que.next == que;
  }

  method Front(que: Node, ghost s: seq<Node>) returns (r: Node?)
    requires Ring([que] + s)
    ensures r == if s == [] then que else s[0]
  {
    assert Joined([que] + s, 0);
    r := que.next;
  }

  method Back(que: Node, ghost s: seq<Node>) returns (r: Node?)
    requires Ring([que] + s)
    ensures r == if s == [] then que else s[|s| - 1]
  {
    assert Joined([que] + s, |s|);
    r := que.prev;
  }

  /** list_push_back. */
  method PushBack(que: Node, ptr: Node, ghost s: seq<Node>)
    requires Ring([que] + s) && ptr != que && ptr !in s
    modifies que, ptr, s
    ensures Ring([que] + s + [ptr])
  {
    ghost var r, t := [que] + s, [que] + s + [ptr];
    assert Joined(r, 0) && Joined(r, |s|);
    assert s != [] ==> r[|s|] == s[|s| - 1];
    ghost var last := r[|s|];
    if que.next == que {
      que.next := ptr;
      que.prev := ptr;
      ptr.next := que;
      ptr.prev := que;
    } else {
      ptr.prev := que.prev;
      ptr.next := que;
      que.prev.next := ptr;
      que.prev := ptr;
    }
    assert NoDup(t);
    forall k | 0 <= k < |t| ensures Joined(t, k) {
      if k < |s| {
        assert old(Joined(r, k)) && t[k] == r[k] && t[k + 1] == r[k + 1] && t[k] != last && t[k + 1] != que;
      }
    }
  }

  /** list_push_front. */
  method PushFront(que: Node, ptr: Node, ghost s: seq<Node>)
    requires Ring([que] + s) && ptr != que && ptr !in s
    modifies que, ptr, s
    ensures Ring([que] + [ptr] + s)
  {
    ghost var r, t := [que] + s, [que] + [ptr] + s;
    assert Joined(r, 0) && Joined(r, |s|);
    assert s != [] ==> r[1] == s[0];
    if que.next == que {
      que.next := ptr;
      que.prev := ptr;
      ptr.next := que;
      ptr.prev := que;
    } else {
      ptr.next := que.next;
      ptr.prev := que;
      que.next.prev := ptr;
      que.next := ptr;
    }
    forall k | 0 <= k < |t| && k != 1 ensures t[k] == r[if k == 0 then 0 else k - 1] {}
    forall x, y | 0 <= x < y < |t| ensures t[x] != t[y] {}
    forall k | 0 <= k < |t| ensures Joined(t, k) {
      if k >= 2 { assert old(Joined(r, k - 1)) && t[k] == r[k - 1] && t[k] != que && t[After(k, |t|)] != r[1]; }
    }
  }

  /** list_delete of the i-th member. */
  method Delete(ptr: Node, ghost que: Node, ghost s: seq<Node>, ghost i: nat)
    requires Ring([que] + s) && i < |s| && s[i] == ptr
    modifies que, s
    ensures Ring([que] + s[..i] + s[i + 1..]) && ptr.next == null && ptr.prev == null
  {
    ghost var r, t := [que] + s, [que] + s[..i] + s[i + 1..];
    assert r[i + 1] == ptr && Joined(r, i) && Joined(r, i + 1);
    ghost var before, after := r[i], r[After(i + 1, |r|)];
    ptr.prev.next := ptr.next;
    ptr.next.prev := ptr.prev;
    ptr.next := null;
    ptr.prev := null;
    forall k | 0 <= k < |t| ensures t[k] == r[if k <= i then k else k + 1] {}
    assert NoDup(t);
    forall k | 0 <= k < |t| ensures Joined(t, k) {
      if k < i {
        assert old(Joined(r, k)) && t[k] != before && t[k + 1] != after;
      } else if k == i {
        assert t[k] == before && t[After(k, |t|)] == after;
      } else {
        assert old(Joined(r, k + 1)) && t[k] != before && t[After(k, |t|)] == r[After(k + 1, |r|)] != after;
      }
    }
  }

  /** list_pop_front; from an empty list it returns the head. */
  method PopFront(que: Node, ghost s: seq<Node>) returns (ptr: Node?)
    requires Ring([que] + s)
    modifies que, s
    ensures ptr == if s == [] then que else s[0]
    ensures Ring([que] + if s == [] then [] else s[1..])
  {
    ghost var r, t := [que] + s, [que] + if s == [] then [] else s[1..];
    assert Joined(r, 0);
    assert s != [] ==> r[1] == s[0] && Joined(r, 1);
    ptr := que.next;
    que.next := que.next.next;
    que.next.prev := que;
    forall k | 0 <= k < |t| ensures t[k] == r[if k == 0 then 0 else k + 1] {}
    assert NoDup(t);
    forall k | 0 <= k < |t| ensures Joined(t, k) {
      if k >= 1 { assert old(Joined(r, k + 1)) && t[k] == r[k + 1] && t[After(k, |t|)] == r[After(k + 1, |r|)]; }
    }
  }

  /** list_pop_back; from an empty list it returns the head. */
  method PopBack(que: Node, ghost s: seq<Node>) returns (ptr: Node?)
    requires Ring([que] + s)
    modifies que, s
    ensures ptr == if s == [] then que else s[|s| - 1]
    ensures Ring([que] + if s == [] then [] else s[..|s| - 1])
  {
    ghost var r, t := [que] + s, [que] + if s == [] then [] else s[..|s| - 1];
    assert Joined(r, |s|);
    assert s != [] ==> r[|s|] == s[|s| - 1] && Joined(r, |s| - 1);
    ptr := que.prev;
    que.prev := que.prev.prev;
    que.prev.next := que;
    forall k | 0 <= k < |t| ensures t[k] == r[k] {}
    assert NoDup(t);
    forall k | 0 <= k < |t| ensures Joined(t, k) {
      if k + 1 < |t| { assert old(Joined(r, k)) && t[k] == r[k] && t[k + 1] == r[k + 1]; }
    }
  }

  /** bget's first scan: from the head's next until the head again. */
  method Members(que: Node, ghost s: seq<Node>) returns (out: seq<Node>)
    requires Ring([que] + s)
    ensures out == s
  {
    ghost var r := [que] + s;
    out := [];
    assert Joined(r, 0);
    var l := que.next;
    while l != que
      invariant |out| <= |s| && out == s[..|out|] && l == r[if |out| == |s| then 0 else |out| + 1]
      decreases |s| - |out|
    {
      assert l == s[|out|] && Joined(r, |out| + 1);
      out := out + [l];
      l := l.next;
    }
  }

  /** The same from the back, as in bget's second scan. */
  method MembersBack(que: Node, ghost s: seq<Node>) returns (out: seq<Node>)
    requires Ring([que] + s)
    ensures out == s
  {
    ghost var r := [que] + s;
    ghost var k: int := |s|;
    out := [];
    assert Joined(r, k);
    var l := que.prev;
    while l != que
      invariant 0 <= k <= |s| && out == s[k..] && l == r[k]
      decreases k
    {
      assert l == s[k - 1] && Joined(r, k - 1);
      k := k - 1;
      out := [l] + out;
      l := l.prev;
    }
    assert k == 0;
  }

  // ---- deleting while walking --------------------------------------------------------------

  /** The members that are in a set, or those that are not, in order. */
  function Select(s: seq<Node>, w: set<Node>, inside: bool): (r: seq<Node>)
    ensures forall x <- r :: x in s && (x in w <==> inside)
    ensures forall x <- s :: (x in w <==> inside) ==> x in r
  {
    if s == [] then []
    else
      var t, x := Select(s[..|s| - 1], w, inside), s[|s| - 1];
      if x in w <==> inside then t + [x] else t
  }

  lemma SelectNext(s: seq<Node>, k: nat, w: set<Node>, inside: bool)
    requires k < |s|
    ensures Select(s[..k + 1], w, inside) == Select(s[..k], w, inside) + if s[k] in w <==> inside then [s[k]] else []
  {
    assert s[..k + 1][..k] == s[..k];
  }

  /** What a walk has left in the list when it comes to the k-th member. */
  function Walked(s: seq<Node>, k: nat, w: set<Node>): seq<Node>
    requires k <= |s|
  {
    Select(s[..k], w, false) + s[k..]
  }

  /** Where the walk stands, and what a turn makes of the list. */
  lemma WalkedAt(s: seq<Node>, k: nat, w: set<Node>, i: nat, m: seq<Node>)
    requires k < |s| && i == |Select(s[..k], w, false)| && m == Walked(s, k, w)
    ensures i < |m| && m[i] == s[k] && (i + 1 == |m| <==> k + 1 == |s|) && (i + 1 < |m| ==> m[i + 1] == s[k + 1])
    ensures Walked(s, k + 1, w) == if s[k] in w then m[..i] + m[i + 1..] else m
  {
    SelectNext(s, k, w, false);
    assert s[k..] == [s[k]] + s[k + 1..];
    assert m[..i] == Select(s[..k], w, false) && m[i + 1..] == s[k + 1..];
  }

  lemma WalkedInside(s: seq<Node>, k: nat, w: set<Node>)
    requires k <= |s|
    ensures forall j :: 0 <= j < |Walked(s, k, w)| ==> Walked(s, k, w)[j] in s
  {
    var t, m := Select(s[..k], w, false), Walked(s, k, w);
    forall j | 0 <= j < |m| ensures m[j] in s {
      if j < |t| { assert t[j] in s[..k]; }
    }
  }

  /** Members that have left are not in the list. */
  lemma Apart(que: Node, s: seq<Node>, k: nat, w: set<Node>, x: Node)
    requires k <= |s| && NoDup([que] + s) && x in Select(s[..k], w, true)
    ensures x != que && x !in Walked(s, k, w)
  {
    var a :| 0 <= a < k && s[a] == x;
    var r := [que] + s;
    assert r[0] == que && r[a + 1] == x;
    forall b | k <= b < |s| ensures s[b] != x { assert r[b + 1] == s[b]; }
  }

  ghost predicate Loose(out: seq<Node>)
    reads out
  {
    forall k :: 0 <= k < |out| ==> out[k].next == null && out[k].prev == null
  }

  /** The loop of wakeup1: the members to wake leave the list while it is walked, each behind a next
      pointer saved before. They leave in order, and the ring left is the others in order. */
  method DeleteWalking(que: Node, w: set<Node>, ghost s: seq<Node>) returns (out: seq<Node>)
    requires Ring([que] + s)
    modifies que, s
    ensures Ring([que] + Select(s, w, false)) && out == Select(s, w, true) && Loose(out)
  {
    out := [];
    ghost var k, m := 0, s;
    assert Walked(s, 0, w) == s && Joined([que] + s, 0);
    var l := que.next;
    while l != que
      invariant k <= |s| && m == Walked(s, k, w) && Ring([que] + m)
      invariant out == Select(s[..k], w, true) && Loose(out)
      invariant l == if k == |s| then que else s[k]
      decreases |s| - k
    {
      ghost var i := |Select(s[..k], w, false)|;
      TurnFacts(que, s, k, w, i, m, out);
      l, out, m := WalkTurn(que, l, w, out, m, i);
      k := k + 1;
    }
    WalkEnds(que, s, k, w);
  }

  /** What the list is before a turn, and what it and the walk will be. */
  lemma TurnFacts(que: Node, s: seq<Node>, k: nat, w: set<Node>, i: nat, m: seq<Node>, out: seq<Node>)
    requires k < |s| && NoDup([que] + s) && i == |Select(s[..k], w, false)|
    requires m == Walked(s, k, w) && out == Select(s[..k], w, true)
    ensures i < |m| && m[i] == s[k] && (i + 1 == |m| <==> k + 1 == |s|) && (i + 1 < |m| ==> m[i + 1] == s[k + 1])
    ensures Walked(s, k + 1, w) == if s[k] in w then m[..i] + m[i + 1..] else m
    ensures Select(s[..k + 1], w, true) == if s[k] in w then out + [s[k]] else out
    ensures forall j :: 0 <= j < |m| ==> m[j] in s
    ensures forall j :: 0 <= j < |out| ==> out[j] != que && out[j] !in m
  {
    SelectNext(s, k, w, true);
    WalkedAt(s, k, w, i, m);
    WalkedInside(s, k, w);
    forall j | 0 <= j < |out| ensures out[j] != que && out[j] !in m { Apart(que, s, k, w, out[j]); }
  }

  lemma WalkEnds(que: Node, s: seq<Node>, k: nat, w: set<Node>)
    requires NoDup([que] + s) && k <= |s| && que == if k == |s| then que else s[k]
    ensures k == |s| && s[..k] == s && Walked(s, k, w) == Select(s, w, false)
  {
    var r := [que] + s;
    forall j | 0 <= j < |s| ensures s[j] != que { assert r[0] == que && r[j + 1] == s[j]; }
  }

  /** One turn: save the next pointer, and delete the member if it is to wake. */
  method WalkTurn(ghost que: Node, l: Node, w: set<Node>, out: seq<Node>, ghost m: seq<Node>, ghost i: nat)
    returns (lnext: Node?, out': seq<Node>, ghost m': seq<Node>)
    requires Ring([que] + m) && i < |m| && m[i] == l
    requires Loose(out) && forall j :: 0 <= j < |out| ==> out[j] != que && out[j] !in m
    modifies que, m
    ensures lnext == if i + 1 == |m| then que else m[i + 1]
    ensures m' == (if l in w then m[..i] + m[i + 1..] else m) && Ring([que] + m')
    ensures out' == (if l in w then out + [l] else out) && Loose(out')
  {
    lnext := Next(que, l, m, i);
    out', m' := out, m;
    if l in w {
      out' := Leave(l, que, m, i, out);
      m' := m[..i] + m[i + 1..];
    }
  }

  /** The i-th member follows those that left before it. */
  method Leave(l: Node, ghost que: Node, ghost m: seq<Node>, ghost i: nat, out: seq<Node>) returns (out': seq<Node>)
    requires Ring([que] + m) && i < |m| && m[i] == l
    requires Loose(out) && forall j :: 0 <= j < |out| ==> out[j] != que && out[j] !in m
    modifies que, m
    ensures Ring([que] + (m[..i] + m[i + 1..])) && out' == out + [l] && Loose(out')
  {
    Delete(l, que, m, i);
    assert Loose(out);
    assert [que] + m[..i] + m[i + 1..] == [que] + (m[..i] + m[i + 1..]);
    out' := out + [l];
  }

  method Next(ghost que: Node, l: Node, ghost m: seq<Node>, ghost i: nat) returns (r: Node?)
    requires Ring([que] + m) && i < |m| && m[i] == l
    ensures r == if i + 1 == |m| then que else m[i + 1]
  {
    assert Joined([que] + m, i + 1);
    r := l.next;
  }
}
