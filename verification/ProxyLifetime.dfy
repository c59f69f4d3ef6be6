/** How long a proxy lives: it is freed when the application has destroyed it and no
    event that is queued or being dispatched refers to it any more. */
module ProxyLifetime {
  import opened Options

  datatype Proxy = Proxy(refcount: int, destroyed: bool)

  /** An object argument may be null. */
  type Refs = seq<Option<nat>>

  /** An event for `proxy`, with its object arguments. */
  datatype Closure = Closure(proxy: nat, args: Refs)

  // ---------- References ----------

  function Count(refs: Refs, p: nat): nat {
    if refs == [] then 0 else (if refs[0] == Some(p) then 1 else 0) + Count(refs[1..], p)
  }

  /** What a closure keeps: its arguments and its proxy. */
  function Held(c: Closure): Refs {
    c.args + [Some(c.proxy)]
  }

  function ListCount(cs: seq<Closure>, p: nat): nat {
    if cs == [] then 0 else Count(Held(cs[0]), p) + ListCount(cs[1..], p)
  }

  function QueueCount(queues: seq<seq<Closure>>, p: nat): nat {
    if queues == [] then 0 else ListCount(queues[0], p) + QueueCount(queues[1..], p)
  }

  function RefCount(queues: seq<seq<Closure>>, dispatching: seq<Closure>, p: nat): nat {
    QueueCount(queues, p) + ListCount(dispatching, p)
  }

  lemma {:induction false} CountAppend(refs: Refs, more: Refs, p: nat)
    ensures Count(refs + more, p) == Count(refs, p) + Count(more, p)
    decreases |refs|
  {
    if refs == [] {
      assert refs + more == more;
    } else {
      CountAppend(refs[1..], more, p);
      assert (refs + more)[1..] == refs[1..] + more;
    }
  }

  lemma {:induction false} CountIncludes(refs: Refs, i: nat)
    requires i < |refs| && refs[i].Some?
    ensures Count(refs, refs[i].value) > 0
    decreases i
  {
    if i > 0 {
      CountIncludes(refs[1..], i - 1);
    }
  }

  lemma {:induction false} ListCountAppend(cs: seq<Closure>, c: Closure, p: nat)
    ensures ListCount(cs + [c], p) == ListCount(cs, p) + Count(Held(c), p)
    decreases |cs|
  {
    if cs == [] {
      assert cs + [c] == [c] && [c][1..] == [];
    } else {
      ListCountAppend(cs[1..], c, p);
      assert (cs + [c])[1..] == cs[1..] + [c];
    }
  }

  lemma {:induction false} ListCountWithout(cs: seq<Closure>, k: nat, p: nat)
    requires k < |cs|
    ensures ListCount(cs, p) == ListCount(cs[..k] + cs[k + 1..], p) + Count(Held(cs[k]), p)
    decreases k
  {
    var rest := cs[..k] + cs[k + 1..];
    if k == 0 {
      assert rest == cs[1..];
    } else {
      ListCountWithout(cs[1..], k - 1, p);
      assert rest[1..] == cs[1..][..k - 1] + cs[1..][k..];
    }
  }

  lemma {:induction false} QueueCountUpdate(queues: seq<seq<Closure>>, q: nat, cs: seq<Closure>, p: nat)
    requires q < |queues|
    ensures QueueCount(queues[q := cs], p) + ListCount(queues[q], p) == QueueCount(queues, p) + ListCount(cs, p)
    decreases q
  {
    var queues' := queues[q := cs];
    if q == 0 {
      assert queues'[1..] == queues[1..];
    } else {
      QueueCountUpdate(queues[1..], q - 1, cs, p);
      assert queues'[1..] == queues[1..][q - 1 := cs];
    }
  }

  lemma {:induction false} QueueCountAppend(queues: seq<seq<Closure>>, p: nat)
    ensures QueueCount(queues + [[]], p) == QueueCount(queues, p)
    decreases |queues|
  {
    if queues == [] {
      var one: seq<seq<Closure>> := [[]];
      assert queues + one == one && one[1..] == [];
    } else {
      QueueCountAppend(queues[1..], p);
      assert (queues + [[]])[1..] == queues[1..] + [[]];
    }
  }

  // ---------- Validation ----------

  /** The arguments without those already destroyed. */
  function Validated(args: Refs, gone: set<nat>): Refs {
    seq(|args|, (i: nat) requires i < |args| => if args[i].Some? && args[i].value in gone then None else args[i])
  }

  /** The references that get lost by it. */
  function Forgotten(args: Refs, gone: set<nat>): Refs {
    seq(|args|, (i: nat) requires i < |args| => if args[i].Some? && args[i].value in gone then args[i] else None)
  }

  lemma {:induction false} ValidatedCount(args: Refs, gone: set<nat>, p: nat)
    ensures Count(args, p) == Count(Validated(args, gone), p) + Count(Forgotten(args, gone), p)
    decreases |args|
  {
    if args != [] {
      ValidatedCount(args[1..], gone, p);
      assert Validated(args, gone)[1..] == Validated(args[1..], gone);
      assert Forgotten(args, gone)[1..] == Forgotten(args[1..], gone);
    }
  }

  // ---------- The count ----------

  /** The proxies in memory, of the `next` made so far, the events that are queued and
      being dispatched, the proxies the application has destroyed, and the references
      that were forgotten. */
  datatype Memory = Memory(proxies: map<nat, Proxy>, next: nat, queues: seq<seq<Closure>>, dispatching: seq<Closure>,
                           gone: set<nat>, leaked: Refs)

  /** The application holds one reference until it destroys the proxy; there are `refs`
      others besides the forgotten ones. */
  ghost predicate CountedAt(m: Memory, refs: nat, p: nat) {
    if p in m.proxies then
      && p < m.next && m.proxies[p].refcount > 0 && m.proxies[p].destroyed == (p in m.gone)
      && m.proxies[p].refcount == (if p in m.gone then 0 else 1) + refs + Count(m.leaked, p)
    else
      refs == 0 && Count(m.leaked, p) == 0 && (p in m.gone <==> p < m.next)
  }

  /** The counts are right if the references `more` count as well. */
  ghost predicate Counted(m: Memory, more: Refs) {
    forall p: nat :: CountedAt(m, RefCount(m.queues, m.dispatching, p) + Count(more, p), p)
  }

  lemma CountsOf(m: Memory, more: Refs, p: nat)
    requires Counted(m, more)
    ensures CountedAt(m, RefCount(m.queues, m.dispatching, p) + Count(more, p), p)
  {
  }

  /** A proxy is freed if and only if it was destroyed, no event refers to it, and no
      reference to it was ever forgotten. So no event refers to a freed proxy. */
  lemma FreedIff(m: Memory, p: nat)
    requires Counted(m, []) && p < m.next
    ensures p !in m.proxies <==> p in m.gone && RefCount(m.queues, m.dispatching, p) == 0 && Count(m.leaked, p) == 0
  {
    CountsOf(m, [], p);
  }

  /** What is held is in memory, and marked if it was destroyed. */
  lemma HeldIsInMemory(m: Memory, more: Refs, i: nat)
    requires Counted(m, more) && i < |more| && more[i].Some?
    ensures var p := more[i].value; p in m.proxies && m.proxies[p].destroyed == (p in m.gone)
  {
    CountIncludes(more, i);
    CountsOf(m, more, more[i].value);
  }

  function Unreffed(proxies: map<nat, Proxy>, p: nat): map<nat, Proxy>
    requires p in proxies
  {
    if proxies[p].refcount == 1 then proxies - {p}
    else proxies[p := proxies[p].(refcount := proxies[p].refcount - 1)]
  }

  lemma DropCounts(m: Memory, p: nat, more: Refs)
    requires Counted(m, [Some(p)] + more)
    ensures p in m.proxies && m.proxies[p].refcount > 0 && (m.proxies[p].refcount == 1 ==> m.proxies[p].destroyed)
    ensures Counted(m.(proxies := Unreffed(m.proxies, p)), more)
  {
    assert ([Some(p)] + more)[1..] == more;
    CountsOf(m, [Some(p)] + more, p);
    var m' := m.(proxies := Unreffed(m.proxies, p));
    forall x: nat
      ensures CountedAt(m', RefCount(m'.queues, m'.dispatching, x) + Count(more, x), x)
    {
      CountsOf(m, [Some(p)] + more, x);
    }
  }

  lemma AddCounts(m: Memory, p: nat, more: Refs)
    requires Counted(m, more) && p in m.proxies
    ensures Counted(m.(proxies := m.proxies[p := m.proxies[p].(refcount := m.proxies[p].refcount + 1)]),
                    more + [Some(p)])
  {
    var m' := m.(proxies := m.proxies[p := m.proxies[p].(refcount := m.proxies[p].refcount + 1)]);
    forall x: nat
      ensures CountedAt(m', RefCount(m'.queues, m'.dispatching, x) + Count(more + [Some(p)], x), x)
    {
      CountAppend(more, [Some(p)], x);
      assert Count([Some(p)], x) == (if x == p then 1 else 0) + Count([], x);
      CountsOf(m, more, x);
    }
  }

  /** Null references count for nothing. */
  lemma NullCounts(m: Memory, before: Refs, after: Refs)
    ensures Counted(m, before + [None] + after) <==> Counted(m, before + after)
  {
    forall x: nat
      ensures Count(before + [None] + after, x) == Count(before + after, x)
    {
      CountAppend(before, [None], x);
      CountAppend(before + [None], after, x);
      CountAppend(before, after, x);
      assert Count([None], x) == Count([], x);
    }
  }

  lemma CreateCounts(m: Memory)
    requires Counted(m, [])
    ensures m.next !in m.proxies && m.next !in m.gone
    ensures Counted(m.(proxies := m.proxies[m.next := Proxy(1, false)], next := m.next + 1), [])
  {
    CountsOf(m, [], m.next);
    var m' := m.(proxies := m.proxies[m.next := Proxy(1, false)], next := m.next + 1);
    forall x: nat
      ensures CountedAt(m', RefCount(m'.queues, m'.dispatching, x) + Count([], x), x)
    {
      CountsOf(m, [], x);
    }
  }

  lemma DestroyCounts(m: Memory, p: nat)
    requires Counted(m, []) && p in m.proxies && p !in m.gone
    ensures m.proxies[p].refcount > 0
    ensures var marked := m.proxies[p := m.proxies[p].(destroyed := true)];
            Counted(m.(proxies := Unreffed(marked, p), gone := m.gone + {p}), [])
  {
    CountsOf(m, [], p);
    var marked := m.proxies[p := m.proxies[p].(destroyed := true)];
    var m' := m.(proxies := Unreffed(marked, p), gone := m.gone + {p});
    forall x: nat
      ensures CountedAt(m', RefCount(m'.queues, m'.dispatching, x) + Count([], x), x)
    {
      CountsOf(m, [], x);
    }
  }

  /** The same references, in other places. */
  lemma MoveCounts(m: Memory, more: Refs, m': Memory, more': Refs)
    requires Counted(m, more)
    requires m' == m.(queues := m'.queues, dispatching := m'.dispatching)
    requires forall p: nat :: RefCount(m.queues, m.dispatching, p) + Count(more, p)
                              == RefCount(m'.queues, m'.dispatching, p) + Count(more', p)
    ensures Counted(m', more')
  {
    forall x: nat
      ensures CountedAt(m', RefCount(m'.queues, m'.dispatching, x) + Count(more', x), x)
    {
      CountsOf(m, more, x);
    }
  }

  lemma LinkCounts(m: Memory, q: nat, c: Closure)
    requires Counted(m, Held(c)) && q < |m.queues|
    ensures Counted(m.(queues := m.queues[q := m.queues[q] + [c]]), [])
  {
    var m' := m.(queues := m.queues[q := m.queues[q] + [c]]);
    forall p: nat
      ensures RefCount(m.queues, m.dispatching, p) + Count(Held(c), p) == RefCount(m'.queues, m'.dispatching, p) + 0
    {
      ListCountAppend(m.queues[q], c, p);
      QueueCountUpdate(m.queues, q, m.queues[q] + [c], p);
    }
    MoveCounts(m, Held(c), m', []);
  }

  lemma UnlinkCounts(m: Memory, q: nat)
    requires Counted(m, []) && q < |m.queues| && m.queues[q] != []
    ensures Counted(m.(queues := m.queues[q := m.queues[q][1..]]), Held(m.queues[q][0]))
  {
    var m' := m.(queues := m.queues[q := m.queues[q][1..]]);
    var c := m.queues[q][0];
    forall p: nat
      ensures RefCount(m.queues, m.dispatching, p) + 0 == RefCount(m'.queues, m'.dispatching, p) + Count(Held(c), p)
    {
      QueueCountUpdate(m.queues, q, m.queues[q][1..], p);
    }
    MoveCounts(m, [], m', Held(c));
  }

  lemma StartCounts(m: Memory, c: Closure)
    requires Counted(m, Held(c))
    ensures Counted(m.(dispatching := m.dispatching + [c]), [])
  {
    var m' := m.(dispatching := m.dispatching + [c]);
    forall p: nat
      ensures RefCount(m.queues, m.dispatching, p) + Count(Held(c), p) == RefCount(m'.queues, m'.dispatching, p) + 0
    {
      ListCountAppend(m.dispatching, c, p);
    }
    MoveCounts(m, Held(c), m', []);
  }

  lemma EndCounts(m: Memory, k: nat)
    requires Counted(m, []) && k < |m.dispatching|
    ensures Counted(m.(dispatching := m.dispatching[..k] + m.dispatching[k + 1..]), Held(m.dispatching[k]))
  {
    var m' := m.(dispatching := m.dispatching[..k] + m.dispatching[k + 1..]);
    forall p: nat
      ensures RefCount(m.queues, m.dispatching, p) + 0
        == RefCount(m'.queues, m'.dispatching, p) + Count(Held(m.dispatching[k]), p)
    {
      ListCountWithout(m.dispatching, k, p);
    }
    MoveCounts(m, [], m', Held(m.dispatching[k]));
  }

  lemma NewQueueCounts(m: Memory)
    requires Counted(m, [])
    ensures Counted(m.(queues := m.queues + [[]]), [])
  {
    var m' := m.(queues := m.queues + [[]]);
    forall p: nat
      ensures RefCount(m.queues, m.dispatching, p) + 0 == RefCount(m'.queues, m'.dispatching, p) + 0
    {
      QueueCountAppend(m.queues, p);
    }
    MoveCounts(m, [], m', []);
  }

  /** References that validation drops are forgotten, not given back. */
  lemma ValidateCounts(m: Memory, c: Closure)
    requires Counted(m, Held(c))
    ensures Counted(m.(leaked := m.leaked + Forgotten(c.args, m.gone)),
                    Held(Closure(c.proxy, Validated(c.args, m.gone))))
  {
    var v := Closure(c.proxy, Validated(c.args, m.gone));
    var m' := m.(leaked := m.leaked + Forgotten(c.args, m.gone));
    forall x: nat
      ensures CountedAt(m', RefCount(m'.queues, m'.dispatching, x) + Count(Held(v), x), x)
    {
      ValidatedCount(c.args, m.gone, x);
      CountAppend(m.leaked, Forgotten(c.args, m.gone), x);
      CountAppend(c.args, [Some(c.proxy)], x);
      CountAppend(v.args, [Some(c.proxy)], x);
      CountsOf(m, Held(c), x);
    }
  }

  lemma StartIsCounted()
    ensures Counted(Memory(map[], 0, [[]], [], {}, []), [])
  {
    var m := Memory(map[], 0, [[]], [], {}, []);
    assert m.queues[1..] == [];
    forall x: nat
      ensures CountedAt(m, RefCount(m.queues, m.dispatching, x) + Count([], x), x)
    {
      assert QueueCount(m.queues, x) == ListCount([], x) + QueueCount(m.queues[1..], x);
    }
  }

  // ---------- The client ----------

  class Client {
    var proxies: map<nat, Proxy>
    var next: nat
    var queues: seq<seq<Closure>>
    var dispatching: seq<Closure>
    ghost var gone: set<nat>
    ghost var leaked: Refs

    ghost function View(): Memory
      reads this
    {
      Memory(proxies, next, queues, dispatching, gone, leaked)
    }

    /** The count of every proxy is what the closures, the application and the
        forgotten references make it. */
    ghost predicate Valid()
      reads this
    {
      Counted(View(), [])
    }

    constructor ()
      ensures Valid() && View() == Memory(map[], 0, [[]], [], {}, [])
    {
      proxies, next, queues, dispatching, gone, leaked := map[], 0, [[]], [], {}, [];
      StartIsCounted();
    }

    method CreateProxy() returns (p: nat)
      requires Valid()
      modifies this`proxies, this`next
      ensures Valid() && p == old(next) && p !in old(proxies) && p !in gone
      ensures proxies == old(proxies)[p := Proxy(1, false)] && next == p + 1
    {
      CreateCounts(View());
      p := next;
      proxies := proxies[p := Proxy(1, false)];
      next := next + 1;
    }

    method CreateQueue() returns (q: nat)
      requires Valid()
      modifies this`queues
      ensures Valid() && queues == old(queues) + [[]] && q == |old(queues)|
    {
      NewQueueCounts(View());
      q := |queues|;
      queues := queues + [[]];
    }

    /** Neither of the two reasons to abort ever applies. */
    method Unref(p: nat)
      requires p in proxies && proxies[p].refcount > 0
      requires proxies[p].refcount == 1 ==> proxies[p].destroyed
      modifies this`proxies
      ensures proxies == Unreffed(old(proxies), p)
    {
      proxies := proxies[p := proxies[p].(refcount := proxies[p].refcount - 1)];
      if proxies[p].refcount == 0 {
        proxies := proxies - {p};
      }
    }

    /** The application is done with a proxy. */
    method DestroyProxy(p: nat)
      requires Valid() && p in proxies && p !in gone
      modifies this`proxies, this`gone
      ensures Valid() && gone == old(gone) + {p}
    {
      DestroyCounts(View(), p);
      proxies := proxies[p := proxies[p].(destroyed := true)];
      gone := gone + {p};
      Unref(p);
    }

    method AddRef(p: nat, ghost more: Refs)
      requires Counted(View(), more) && p in proxies
      modifies this`proxies
      ensures Counted(View(), more + [Some(p)]) && proxies.Keys == old(proxies).Keys
    {
      AddCounts(View(), p, more);
      proxies := proxies[p := proxies[p].(refcount := proxies[p].refcount + 1)];
    }

    method IncreaseRefcounts(c: Closure)
      requires Valid() && c.proxy in proxies
      requires forall i | 0 <= i < |c.args| && c.args[i].Some? :: c.args[i].value in proxies
      modifies this`proxies
      ensures Counted(View(), Held(c)) && proxies.Keys == old(proxies).Keys
    {
      for i := 0 to |c.args|
        invariant Counted(View(), c.args[..i]) && proxies.Keys == old(proxies).Keys
      {
        assert c.args[..i + 1] == c.args[..i] + [c.args[i]];
        if c.args[i].Some? {
          AddRef(c.args[i].value, c.args[..i]);
        } else {
          NullCounts(View(), c.args[..i], []);
          assert c.args[..i] + [None] + [] == c.args[..i + 1] && c.args[..i] + [] == c.args[..i];
        }
      }
      assert c.args[..|c.args|] == c.args;
      AddRef(c.proxy, c.args);
    }

    /** An event arrives: its proxies are ones the client's map still has. */
    method QueueEvent(c: Closure, q: nat)
      requires Valid() && q < |queues| && c.proxy in proxies
      requires forall i | 0 <= i < |c.args| && c.args[i].Some? :: c.args[i].value in proxies
      modifies this`proxies, this`queues
      ensures Valid() && queues == old(queues)[q := old(queues)[q] + [c]]
      ensures proxies.Keys == old(proxies).Keys
    {
      IncreaseRefcounts(c);
      LinkCounts(View(), q, c);
      queues := queues[q := queues[q] + [c]];
    }

    /** Gives up a closure that is in no list any more. */
    method DestroyQueuedClosure(c: Closure)
      requires Counted(View(), Held(c))
      modifies this`proxies
      ensures Valid()
    {
      assert Held(c)[0..] == Held(c);
      for i := 0 to |c.args|
        invariant Counted(View(), Held(c)[i..])
      {
        ghost var rest := Held(c)[i + 1..];
        assert Held(c)[i..] == [c.args[i]] + rest;
        if c.args[i].Some? {
          DropCounts(View(), c.args[i].value, rest);
          Unref(c.args[i].value);
        } else {
          NullCounts(View(), [], rest);
          assert [] + [None] + rest == Held(c)[i..] && [] + rest == rest;
        }
      }
      assert Held(c)[|c.args|..] == [Some(c.proxy)] + [];
      DropCounts(View(), c.proxy, []);
      Unref(c.proxy);
    }

    /** Nulls the arguments the application has destroyed meanwhile, and forgets that
        they were counted. */
    method ValidateClosureObjects(c: Closure) returns (v: Closure)
      requires Counted(View(), Held(c))
      modifies this`leaked
      ensures v == Closure(c.proxy, Validated(c.args, gone))
      ensures Counted(View(), Held(v)) && leaked == old(leaked) + Forgotten(c.args, gone)
    {
      var args := c.args;
      for i := 0 to |args|
        invariant |args| == |c.args| && leaked == old(leaked) && Counted(View(), Held(c))
        invariant forall k | 0 <= k < |args| :: args[k] == if k < i then Validated(c.args, gone)[k] else c.args[k]
      {
        if args[i].Some? {
          assert Held(c)[i] == args[i];
          HeldIsInMemory(View(), Held(c), i);
          if proxies[args[i].value].destroyed {
            args := args[i := None];
          }
        }
      }
      assert args == Validated(c.args, gone);
      v := Closure(c.proxy, args);
      ValidateCounts(View(), c);
      leaked := leaked + Forgotten(c.args, gone);
    }

    method UnlinkFirst(q: nat) returns (c: Closure)
      requires Valid() && q < |queues| && queues[q] != []
      modifies this`queues
      ensures c == old(queues)[q][0] && queues == old(queues)[q := old(queues)[q][1..]]
      ensures Counted(View(), Held(c))
    {
      UnlinkCounts(View(), q);
      c := queues[q][0];
      queues := queues[q := queues[q][1..]];
    }

    /** Takes the first event of a queue. It is given up if its proxy has been destroyed;
        otherwise it is being dispatched, and the mutex is free meanwhile. */
    method BeginDispatch(q: nat) returns (c: Closure)
      requires Valid() && q < |queues| && queues[q] != []
      modifies this`proxies, this`queues, this`dispatching, this`leaked
      ensures Valid() && queues == old(queues)[q := old(queues)[q][1..]]
      ensures c == Closure(old(queues)[q][0].proxy, Validated(old(queues)[q][0].args, gone))
      ensures leaked == old(leaked) + Forgotten(old(queues)[q][0].args, gone)
      ensures dispatching == if c.proxy in gone then old(dispatching) else old(dispatching) + [c]
      ensures c.proxy !in gone ==> proxies == old(proxies)
    {
      var first := UnlinkFirst(q);
      c := ValidateClosureObjects(first);
      HeldIsInMemory(View(), Held(c), |c.args|);
      if proxies[c.proxy].destroyed {
        DestroyQueuedClosure(c);
      } else {
        StartCounts(View(), c);
        dispatching := dispatching + [c];
      }
    }

    /** The handler has returned. */
    method EndDispatch(k: nat)
      requires Valid() && k < |dispatching|
      modifies this`proxies, this`dispatching
      ensures Valid() && dispatching == old(dispatching)[..k] + old(dispatching)[k + 1..]
    {
      var c := dispatching[k];
      EndCounts(View(), k);
      dispatching := dispatching[..k] + dispatching[k + 1..];
      DestroyQueuedClosure(c);
    }

    /** All events of a queue that goes away are given up. */
    method ReleaseQueue(q: nat)
      requires Valid() && q < |queues|
      modifies this`proxies, this`queues
      ensures Valid() && queues == old(queues)[q := []]
    {
      while queues[q] != []
        invariant Valid() && |queues| == |old(queues)| && queues == old(queues)[q := queues[q]]
        decreases |queues[q]|
      {
        var c := UnlinkFirst(q);
        DestroyQueuedClosure(c);
      }
    }
  }

  /** A handler may destroy the proxy it handles: the closure keeps it until the handler
      returns, and then it is freed unless another event or a lost reference keeps it. */
  method DestroyInHandler(c: Client, k: nat)
    requires c.Valid() && k < |c.dispatching| && c.dispatching[k].proxy !in c.gone
    modifies c
    ensures c.Valid() && c.dispatching == old(c.dispatching)[..k] + old(c.dispatching)[k + 1..]
    ensures c.queues == old(c.queues) && c.leaked == old(c.leaked)
    ensures var p := old(c.dispatching)[k].proxy;
            && p in old(c.proxies) && p in c.gone
            && (p !in c.proxies <==> RefCount(c.queues, c.dispatching, p) == 0 && Count(c.leaked, p) == 0)
  {
    var p := c.dispatching[k].proxy;
    CountsOf(c.View(), [], p);
    EndCounts(c.View(), k);
    HeldIsInMemory(c.View().(dispatching := c.dispatching[..k] + c.dispatching[k + 1..]), Held(c.dispatching[k]),
                   |c.dispatching[k].args|);
    c.DestroyProxy(p);
    c.EndDispatch(k);
    FreedIff(c.View(), p);
  }

  /** An event waits for `sender`, with an argument that has been destroyed. */
  method DestroyedArgument() returns (c: Client, p: nat, sender: nat)
    ensures fresh(c) && c.Valid() && c.queues == [[Closure(sender, [Some(p)])]] && c.dispatching == []
    ensures c.gone == {p} && c.leaked == [] && sender != p
  {
    c := new Client();
    p := c.CreateProxy();
    sender := c.CreateProxy();
    c.QueueEvent(Closure(sender, [Some(p)]), 0);
    c.DestroyProxy(p);
    assert c.queues[0] == [] + [Closure(sender, [Some(p)])] == [Closure(sender, [Some(p)])];
    assert |c.queues| == 1;
  }

  lemma NothingWaits(c: Client, p: nat)
    requires c.queues == [[]] && c.dispatching == []
    ensures RefCount(c.queues, c.dispatching, p) == 0
  {
    assert c.queues[1..] == [];
    assert QueueCount(c.queues, p) == ListCount([], p) + QueueCount(c.queues[1..], p);
  }

  /** An argument destroyed before its event is dispatched is never freed. */
  method LeakedArgument() returns (c: Client, p: nat)
    ensures c.Valid() && p in c.gone && p in c.proxies
    ensures RefCount(c.queues, c.dispatching, p) == 0
  {
    var sender;
    c, p, sender := DestroyedArgument();
    var v := c.BeginDispatch(0);
    c.EndDispatch(0);
    assert c.queues == [[]] && Forgotten([Some(p)], {p}) == [Some(p)];
    NothingWaits(c, p);
    CountsOf(c.View(), [], p);
    FreedIff(c.View(), p);
  }
}
