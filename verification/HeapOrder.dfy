/** The order kept by the timer heap, as a property of the sequence of deadlines
    in slot order, and the effect on it of moving one key up or down a level. */
module HeapOrder {
  import opened Timespecs

  function Parent(i: int): int
    requires 1 <= i
  {
    (i - 1) / 2
  }

  ghost predicate Ordered(k: seq<Timespec>) {
    forall i | 1 <= i < |k| :: AtMost(k[Parent(i)], k[i])
  }

  /** Ordered but for slot `c` against its parent and against its children;
      the children of `c` are still at least its parent. */
  ghost predicate OrderedAround(k: seq<Timespec>, c: int) {
    && 0 <= c < |k|
    && (forall i | 1 <= i < |k| && i != c && Parent(i) != c :: AtMost(k[Parent(i)], k[i]))
    && (forall i | 1 <= i < |k| && Parent(i) == c && c > 0 :: AtMost(k[Parent(c)], k[i]))
  }

  /** As above, with the children of `c` in order: only the step up can be wrong. */
  ghost predicate OrderedBelow(k: seq<Timespec>, c: int) {
    && OrderedAround(k, c)
    && forall i | 1 <= i < |k| && Parent(i) == c :: AtMost(k[c], k[i])
  }

  /** A key behind an ordered sequence can only be wrong against its parent. */
  lemma OrderedAppend(k: seq<Timespec>, key: Timespec)
    requires Ordered(k)
    ensures OrderedBelow(k + [key], |k|)
  {
  }

  /** Changing one key of an ordered sequence disturbs only its surroundings. */
  lemma ChangeOne(k: seq<Timespec>, c: int, key: Timespec)
    requires Ordered(k) && 0 <= c < |k|
    ensures OrderedAround(k[c := key], c)
    ensures AtMost(key, k[c]) ==> OrderedBelow(k[c := key], c)
    ensures AtMost(k[c], key) && c > 0 ==> AtMost(k[c := key][Parent(c)], key)
  {
    var m := k[c := key];
    forall i | 1 <= i < |k| && Parent(i) == c && c > 0
      ensures AtMost(m[Parent(c)], m[i])
    {
      assert AtMost(k[Parent(c)], k[c]) && AtMost(k[c], k[i]);
    }
  }

  /** One level up: the parent's key drops into the hole. */
  lemma StepUp(k: seq<Timespec>, c: int)
    requires OrderedBelow(k, c) && c > 0 && TimeLt(k[c], k[Parent(c)])
    ensures OrderedBelow(k[c := k[Parent(c)]][Parent(c) := k[c]], Parent(c))
  {
    var p := Parent(c);
    var m := k[c := k[p]][p := k[c]];
    forall i | 1 <= i < |m| && Parent(i) == p
      ensures AtMost(m[p], m[i]) && (p > 0 ==> AtMost(m[Parent(p)], m[i]))
    {
      if i != c {
        assert AtMost(k[p], k[i]);
      }
    }
    forall i | 1 <= i < |m| && i != p && Parent(i) != p
      ensures AtMost(m[Parent(i)], m[i])
    {
    }
  }

  /** One level down: the smaller child's key rises into the hole. */
  lemma StepDown(k: seq<Timespec>, c: int, child: int)
    requires OrderedAround(k, c) && 1 <= child < |k| && Parent(child) == c
    requires TimeLt(k[child], k[c])
    requires forall i | 1 <= i < |k| && Parent(i) == c :: AtMost(k[child], k[i])
    ensures var m := k[c := k[child]][child := k[c]];
            OrderedAround(m, child) && AtMost(m[Parent(child)], m[child])
            && (c > 0 ==> AtMost(m[Parent(c)], m[c]))
  {
    var m := k[c := k[child]][child := k[c]];
    forall i | 1 <= i < |m| && i != child && Parent(i) != child
      ensures AtMost(m[Parent(i)], m[i])
    {
      if i == c {
        assert AtMost(k[Parent(c)], k[child]);
      }
    }
    forall i | 1 <= i < |m| && Parent(i) == child
      ensures AtMost(m[Parent(child)], m[i])
    {
      assert i != c;
    }
  }

  /** What holds of `k` while a key sinks in `k0` from slot `c0` to slot `c`. */
  ghost predicate SunkFrom(k0: seq<Timespec>, c0: int, k: seq<Timespec>, c: int) {
    && |k| == |k0| && 0 <= c0 <= c < |k| && OrderedAround(k, c) && k[c] == k0[c0]
    && (c == c0 ==> k == k0)
    && (c != c0 ==> AtMost(k[Parent(c)], k[c]))
  }

  /** A sunk key that is not above any child has only the step up left to check,
      and not even that if it moved at all. */
  lemma SunkEnough(k0: seq<Timespec>, c0: int, k: seq<Timespec>, c: int)
    requires SunkFrom(k0, c0, k, c)
    requires forall i | 1 <= i < |k| && Parent(i) == c :: AtMost(k[c], k[i])
    ensures OrderedBelow(k, c)
    ensures c != c0 ==> Ordered(k)
  {
  }

  /** The root of an ordered sequence is a minimum. */
  lemma {:induction false} RootIsLeast(k: seq<Timespec>, i: int)
    requires Ordered(k) && 0 <= i < |k|
    ensures AtMost(k[0], k[i])
    decreases i
  {
    if i > 0 {
      RootIsLeast(k, Parent(i));
    }
  }

  /** Dropping the last slot keeps the order. */
  lemma DropLast(k: seq<Timespec>)
    requires Ordered(k) && |k| > 0
    ensures Ordered(k[..|k| - 1])
  {
  }
}
