/** The intrusive linked list (src/list.c) and the timer module built on it (src/tmr.c). */
module TimerList {
  import opened Bytes
  import T = Timers

  /** A list node with the timer fields behind the link; the list head is a node whose timer fields are unused. */
  class Node {
    var next: Node?
    var timeout: nat
    var periodic: nat
    var id: nat

    constructor ()
      ensures next == null
    {
      next, timeout, periodic, id := null, 0, 0, 0;
    }
  }

  // ---------------------------------------------------------------- list.c

  predicate NoDuplicates(c: seq<Node>) {
    forall i, j :: 0 <= i < j < |c| ==> c[i] != c[j]
  }

  function NextIn(c: seq<Node>, i: nat): Node?
    requires i < |c|
  {
    if i + 1 < |c| then c[i + 1] else null
  }

  /** The links starting at the head `c[0]` run through exactly the nodes of `c`, in order, and end. */
  ghost predicate Chain(c: seq<Node>)
    reads c
  {
    && c != [] && NoDuplicates(c)
    && forall i :: 0 <= i < |c| ==> c[i].next == NextIn(c, i)
  }

  method ListAdd(head: Node, node: Node, ghost c: seq<Node>)
    requires Chain(c) && c[0] == head && node !in c
    modifies head`next, node`next
    ensures Chain([head, node] + c[1..])
  {
    node.next := head.next;
    head.next := node;
    ghost var c' := [head, node] + c[1..];
    forall i | 0 <= i < |c'| ensures c'[i].next == NextIn(c', i) {
      assert i >= 2 ==> c'[i] == c[i - 1];
    }
  }

  /** Position of a node in the chain, or its length. */
  function Find(c: seq<Node>, node: Node): (k: nat)
    ensures k <= |c|
    ensures k < |c| ==> c[k] == node
    ensures forall i :: 0 <= i < k ==> c[i] != node
  {
    if c == [] || c[0] == node then 0 else 1 + Find(c[1..], node)
  }

  function Without(c: seq<Node>, node: Node): seq<Node> {
    var k := Find(c, node);
    if k == |c| then c else c[..k] + c[k + 1..]
  }

  /** Take the node behind `prev` out of the chain. */
  method Unlink(prev: Node, node: Node, ghost c: seq<Node>, ghost k: nat)
    requires Chain(c) && 1 <= k < |c| && c[k - 1] == prev && c[k] == node
    modifies prev`next, node`next
    ensures Chain(c[..k] + c[k + 1..]) && node.next == null
  {
    prev.next := node.next;
    node.next := null;
    ghost var c' := c[..k] + c[k + 1..];
    forall i | 0 <= i < |c'| ensures c'[i].next == NextIn(c', i) {
      if i >= k {
        assert c'[i] == c[i + 1];
      } else {
        assert c'[i] == c[i];
      }
    }
  }

  /** Walks the list; if the node is found it is unlinked, otherwise nothing happens. */
  method ListRemove(head: Node, node: Node, ghost c: seq<Node>)
    requires Chain(c) && c[0] == head && node != head
    modifies (set n | n in c)`next
    ensures Chain(Without(c, node))
    ensures node in c ==> node.next == null
    ensures node !in c ==> forall n :: n in c ==> n.next == old(n.next)
  {
    var prev := head;
    var next := prev.next;
    ghost var k := 1;
    while next != null
      invariant 1 <= k <= |c|
      invariant prev == c[k - 1] && next == NextIn(c, k - 1)
      invariant forall i :: 0 <= i < k ==> c[i] != node
      invariant forall n :: n in c ==> n.next == old(n.next)
      decreases |c| - k
    {
      if next == node {
        Unlink(prev, node, c, k);
        assert Find(c, node) == k;
        return;
      }
      prev := next;
      next := prev.next;
      k := k + 1;
    }
    assert Find(c, node) == |c|;
  }

  method ListIter(node: Node?) returns (next: Node?)
    ensures next == if node == null then null else node.next
  {
    if node == null {
      next := null;
    } else {
      next := node.next;
    }
  }

  // ---------------------------------------------------------------- tmr.c

  /** The chain, head included, carries the entries of the schedule in the same order. */
  predicate Matches(chain: seq<Node>, list: seq<T.Entry<Node>>) {
    && |chain| == |list| + 1
    && forall i :: 0 <= i < |list| ==> list[i].key == chain[i + 1]
  }

  lemma FindMatches(chain: seq<Node>, list: seq<T.Entry<Node>>, node: Node)
    requires Matches(chain, list) && node != chain[0]
    ensures Find(chain, node) == T.Find(list, node) + 1
  {
    var k := T.Find(list, node);
    if k < |list| {
      assert list[k].key == chain[k + 1];
    }
  }

  lemma MatchesDropped(chain: seq<Node>, list: seq<T.Entry<Node>>, k: nat)
    requires Matches(chain, list) && k < |list|
    ensures Matches(chain[..k + 1] + chain[k + 2..], list[..k] + list[k + 1..])
  {
    var c, l := chain[..k + 1] + chain[k + 2..], list[..k] + list[k + 1..];
    forall i | 0 <= i < |l| ensures l[i].key == c[i + 1] {
      if i < k {
        assert l[i] == list[i];
      } else {
        assert l[i] == list[i + 1];
      }
    }
  }

  /** Taking a node out of the chain is taking its entry out of the schedule. */
  lemma MatchesWithout(chain: seq<Node>, list: seq<T.Entry<Node>>, node: Node)
    requires Matches(chain, list) && NoDuplicates(chain) && node != chain[0]
    ensures Matches(Without(chain, node), T.Unschedule(list, node))
    ensures node !in Without(chain, node) && Without(chain, node)[0] == chain[0]
  {
    var k := T.Find(list, node);
    FindMatches(chain, list, node);
    if k < |list| {
      MatchesDropped(chain, list, k);
    }
  }

  lemma MatchesPushed(chain: seq<Node>, list: seq<T.Entry<Node>>, head: Node, e: T.Entry<Node>)
    requires Matches(chain, list)
    ensures Matches([head, e.key] + chain[1..], [e] + list)
  {
    var c, l := [head, e.key] + chain[1..], [e] + list;
    forall i | 0 <= i < |l| ensures l[i].key == c[i + 1] {
      if i > 0 {
        assert l[i] == list[i - 1];
      }
    }
  }

  lemma UnscheduleSubset(list: seq<T.Entry<Node>>, node: Node)
    ensures forall e :: e in T.Unschedule(list, node) ==> e in list
  {}

  /** A timer's fields are its entry, wrapped to 16 bits. */
  ghost predicate Holds(e: T.Entry<Node>)
    reads e.key
  {
    e.key.id == e.id && e.key.periodic == e.period && e.key.timeout == Wrap16(e.due)
  }

  class TmrModule {
    const tmrlist: Node
    var systick: nat
    ghost var now: nat                        // ticks since start, never wrapping
    ghost var chain: seq<Node>                // the head and the scheduled timers, as linked
    ghost var list: seq<T.Entry<Node>>        // the schedule in true time

    /** The tick is the true time wrapped; the links and the timer fields are the schedule wrapped. */
    ghost predicate Valid()
      reads this, chain
    {
      && systick == Wrap16(now)
      && Chain(chain) && chain[0] == tmrlist && Matches(chain, list)
      && forall i :: 0 <= i < |list| ==> Holds(list[i])
    }

    constructor ()
      ensures Valid() && fresh(chain) && list == [] && now == 0
    {
      tmrlist := new Node();
      systick, now, list := 0, 0, [];
      chain := [tmrlist];
    }

    method TickIsr()
      requires Valid()
      modifies this`systick, this`now
      ensures Valid() && now == old(now) + 1
    {
      systick := Wrap16(systick + 1);
      now := now + 1;
    }

    method TmrSet(millisec: nat) returns (timeout: nat)
      requires systick == Wrap16(now)
      ensures timeout == Wrap16(now + millisec)
    {
      timeout := Wrap16(systick + millisec);
    }

    method TmrExpired(tmrset: nat) returns (expired: bool)
      requires systick == Wrap16(now)
      ensures expired == T.Expired16(Wrap16(now), tmrset)
    {
      expired := Wrap16(systick - tmrset) < 32768;
    }

    method TmrUnschedule(tmr: Node)
      requires Valid() && tmr != tmrlist
      modifies this`list, this`chain, (set n | n in chain)`next
      ensures Valid() && list == T.Unschedule(old(list), tmr)
      ensures tmr !in chain && chain == Without(old(chain), tmr)
    {
      MatchesWithout(chain, list, tmr);
      UnscheduleSubset(list, tmr);
      ListRemove(tmrlist, tmr, chain);
      chain := Without(chain, tmr);
      list := T.Unschedule(list, tmr);
      forall i | 0 <= i < |list| ensures Holds(list[i]) {
        assert list[i] in old(list);
      }
    }

    /** Link a timer whose fields are filled in. */
    method Insert(tmr: Node, ghost e: T.Entry<Node>)
      requires Valid() && tmr !in chain && e.key == tmr && Holds(e)
      modifies this`list, this`chain, tmrlist`next, tmr`next
      ensures Valid() && list == [e] + old(list) && chain == [tmrlist, tmr] + old(chain[1..])
    {
      ListAdd(tmrlist, tmr, chain);
      MatchesPushed(chain, list, tmrlist, e);
      list := [e] + list;
      chain := [tmrlist, tmr] + chain[1..];
      forall i | 0 <= i < |list| ensures Holds(list[i]) {
        assert i > 0 ==> list[i] == old(list)[i - 1];
      }
    }

    method TmrSchedule(tmr: Node, id: nat, duration: nat, periodic: bool)
      requires Valid() && tmr != tmrlist
      modifies this`list, this`chain, (set n | n in chain)`next, tmr
      ensures Valid() && list == T.Schedule(old(list), tmr, id, duration, periodic, now)
      ensures chain == [tmrlist, tmr] + Without(old(chain), tmr)[1..]
    {
      TmrUnschedule(tmr);
      Arm(tmr, id, duration, periodic);
    }

    /** Assemble a timer that is not in the list and add it. */
    method Arm(tmr: Node, id: nat, duration: nat, periodic: bool)
      requires Valid() && tmr !in chain
      modifies this`list, this`chain, tmrlist`next, tmr
      ensures Valid()
      ensures list == [T.Entry(tmr, id, now + duration, if periodic then duration else 0)] + old(list)
      ensures chain == [tmrlist, tmr] + old(chain[1..])
    {
      var timeout := TmrSet(duration);
      SetFields(tmr, id, if periodic then duration else 0, timeout);
      Insert(tmr, T.Entry(tmr, id, now + duration, if periodic then duration else 0));
    }

    method SetFields(tmr: Node, id: nat, periodic: nat, timeout: nat)
      requires Valid() && tmr !in chain
      modifies tmr`id, tmr`periodic, tmr`timeout
      ensures Valid() && tmr.id == id && tmr.periodic == periodic && tmr.timeout == timeout
    {
      tmr.id := id;
      tmr.periodic := periodic;
      tmr.timeout := timeout;
      forall i | 0 <= i < |list| ensures Holds(list[i]) {
        assert list[i].key == chain[i + 1];
      }
    }

    /** Walk the list to the first timer that the 16-bit clock takes for expired. */
    method FindExpired() returns (tmr: Node?)
      requires Valid()
      ensures var k := T.FirstExpired(list, now); tmr == if k < |list| then list[k].key else null
    {
      tmr := ListIter(tmrlist);
      ghost var k := 0;
      while tmr != null
        invariant k <= |list| && tmr == NextIn(chain, k)
        invariant forall i :: 0 <= i < k ==> !T.Expired16(Wrap16(now), Wrap16(list[i].due))
        decreases |list| - k
      {
        assert list[k].key == chain[k + 1] == tmr && Holds(list[k]);
        var expired := TmrExpired(tmr.timeout);
        if expired {
          return;
        }
        tmr := ListIter(tmr);
        k := k + 1;
      }
    }

    /** Returns the first expired timer, if any; a periodic one is refreshed, a one-shot is removed. */
    method TmrProcess() returns (tmr: Node?)
      requires Valid()
      modifies this`list, this`chain, set n | n in chain
      ensures Valid()
      ensures list == T.Process(old(list), now).0
      ensures T.Process(old(list), now).1 == if tmr == null then None else Some(tmr)
      ensures tmr != null ==> tmr.id == old(list)[T.FirstExpired(old(list), now)].id
      ensures chain == old(chain) || (tmr != null && chain == Without(old(chain), tmr))
    {
      ghost var k := T.FirstExpired(list, now);
      T.ProcessCases(list, now);
      tmr := FindExpired();
      if tmr != null {
        assert list[k].key == chain[k + 1] && Holds(list[k]);
        if tmr.periodic != 0 {
          Refresh(tmr, k);
        } else {
          Retire(tmr, k);
        }
      }
    }

    /** A periodic timer: the next timeout, one period after the last. */
    method Refresh(tmr: Node, ghost k: nat)
      requires Valid() && k < |list| && list[k].key == tmr
      modifies this`list, tmr`timeout
      ensures Valid() && list == old(list)[k := old(list)[k].(due := old(list)[k].due + old(list)[k].period)]
    {
      tmr.timeout := Wrap16(tmr.timeout + tmr.periodic);
      list := list[k := list[k].(due := list[k].due + list[k].period)];
      forall i | 0 <= i < |list| ensures Holds(list[i]) {
        assert list[i].key == chain[i + 1];
      }
    }

    /** A one-shot timer leaves the list. */
    method Retire(tmr: Node, ghost k: nat)
      requires Valid() && k < |list| && list[k].key == tmr
      modifies this`list, this`chain, (set n | n in chain)`next
      ensures Valid() && list == T.RemoveAt(old(list), k)
      ensures chain == Without(old(chain), tmr)
    {
      assert chain[k + 1] == tmr;
      assert forall i :: 0 <= i < k ==> list[i].key == chain[i + 1] != tmr;
      assert T.Find(list, tmr) == k;
      TmrUnschedule(tmr);
    }
  }
}
