/** The object map of one peer, as the protocol sees it: a table of the ids this
    side hands out, with the list of its vacant slots, and a table of the ids the
    other side hands out. */
module IdMaps {
  import opened Options

  const SERVER_ID_START := 0xff00_0000
  const MAX_OBJECTS := 0x00f0_0000

  datatype Side = Server | Client
  datatype Slot<+T> = Vacant | Live(data: Option<T>, flag: bool)
  datatype Error = NoSpace | Invalid

  /** `free` lists the vacant slots of `own`, the most recently vacated first. */
  datatype IdMap<T> = IdMap(side: Side, own: seq<Slot<T>>, free: seq<nat>, peer: seq<Slot<T>>)

  ghost predicate WellFormed<T>(m: IdMap<T>) {
    && (forall k | 0 <= k < |m.free| :: m.free[k] < |m.own|)
    && (forall j, k | 0 <= j < k < |m.free| :: m.free[j] != m.free[k])
    && (forall i | 0 <= i < |m.own| :: m.own[i].Vacant? <==> i in m.free)
    && (forall i | 0 <= i < |m.peer| :: m.peer[i].Live?)
    && (forall k | 0 <= k < |m.free| :: m.free[k] <= MAX_OBJECTS)
  }

  /** Whether this side hands out `id`. */
  predicate IsOwn(side: Side, id: nat) {
    (id < SERVER_ID_START) == (side == Client)
  }

  function Index(id: nat): nat {
    if id < SERVER_ID_START then id else id - SERVER_ID_START
  }

  function Table<T>(m: IdMap<T>, id: nat): seq<Slot<T>> {
    if IsOwn(m.side, id) then m.own else m.peer
  }

  function Base(side: Side): nat {
    if side == Client then 0 else SERVER_ID_START
  }

  /** What the map holds at `id`; ids outside the table and vacant ids hold nothing. */
  function Lookup<T>(m: IdMap<T>, id: nat): Option<T> {
    var t := Table(m, id);
    if Index(id) < |t| && t[Index(id)].Live? then t[Index(id)].data else None
  }

  function LookupFlag<T>(m: IdMap<T>, id: nat): bool {
    var t := Table(m, id);
    Index(id) < |t| && t[Index(id)].Live? && t[Index(id)].flag
  }

  predicate InUse<T>(m: IdMap<T>, id: nat) {
    var t := Table(m, id);
    Index(id) < |t| && t[Index(id)].Live?
  }

  /** The new id, or 0 when the table has outgrown its limit. */
  function InsertNew<T>(m: IdMap<T>, flag: bool, data: Option<T>): (IdMap<T>, nat)
    requires m.free != [] ==> m.free[0] < |m.own|
  {
    if m.free != [] then
      (m.(own := m.own[m.free[0] := Live(data, flag)], free := m.free[1..]), m.free[0] + Base(m.side))
    else if |m.own| > MAX_OBJECTS then
      (m.(own := m.own + [Live(None, false)]), 0)
    else
      (m.(own := m.own + [Live(data, flag)]), |m.own| + Base(m.side))
  }

  function WithTable<T>(m: IdMap<T>, id: nat, t: seq<Slot<T>>): IdMap<T> {
    if IsOwn(m.side, id) then m.(own := t) else m.(peer := t)
  }

  function InsertAt<T>(m: IdMap<T>, flag: bool, id: nat, data: Option<T>): (IdMap<T>, Option<Error>) {
    var t := Table(m, id);
    var i := Index(id);
    if i > MAX_OBJECTS then (m, Some(NoSpace))
    else if |t| < i then (m, Some(Invalid))
    else if |t| == i then (WithTable(m, id, t + [Live(data, flag)]), None)
    else (WithTable(m, id, t[i := Live(data, flag)]), None)
  }

  /** Accepts an id chosen by the other side: the next unused one, or one whose
      slot holds nothing. */
  function ReserveNew<T>(m: IdMap<T>, id: nat): (IdMap<T>, Option<Error>) {
    var i := Index(id);
    if IsOwn(m.side, id) then (m, Some(Invalid))
    else if i > MAX_OBJECTS then (m, Some(NoSpace))
    else if |m.peer| < i then (m, Some(Invalid))
    else if |m.peer| == i then (m.(peer := m.peer + [Live(None, false)]), None)
    else if m.peer[i] != Live(None, false) then (m, Some(Invalid))
    else (m, None)
  }

  /** Only ids of this side are recycled. */
  function Remove<T>(m: IdMap<T>, id: nat): IdMap<T>
    requires IsOwn(m.side, id) ==> Index(id) < |m.own|
  {
    if !IsOwn(m.side, id) then m
    else m.(own := m.own[Index(id) := Vacant], free := [Index(id)] + m.free)
  }

  // ---------- Calls and runs ----------

  datatype Call<T> =
    | DoInsertNew(flag: bool, data: Option<T>)
    | DoInsertAt(flag: bool, id: nat, data: Option<T>)
    | DoReserveNew(id: nat)
    | DoRemove(id: nat)

  /** What the callers of the map owe it: they do not write to a vacated slot, and
      remove only what is there. */
  predicate Legal<T>(m: IdMap<T>, c: Call<T>) {
    match c
    case DoInsertAt(_, id, _) => IsOwn(m.side, id) && Index(id) < |m.own| ==> InUse(m, id)
    case DoRemove(id) => IsOwn(m.side, id) ==> InUse(m, id) && Index(id) <= MAX_OBJECTS
    case _ => true
  }

  ghost function Do<T>(m: IdMap<T>, c: Call<T>): IdMap<T>
    requires WellFormed(m) && Legal(m, c)
  {
    match c
    case DoInsertNew(flag, data) => InsertNew(m, flag, data).0
    case DoInsertAt(flag, id, data) => InsertAt(m, flag, id, data).0
    case DoReserveNew(id) => ReserveNew(m, id).0
    case DoRemove(id) => Remove(m, id)
  }

  lemma InsertNewKeepsWellFormed<T>(m: IdMap<T>, flag: bool, data: Option<T>)
    requires WellFormed(m)
    ensures WellFormed(InsertNew(m, flag, data).0)
  {
    var m' := InsertNew(m, flag, data).0;
    if m.free != [] {
      forall i | 0 <= i < |m'.own|
        ensures m'.own[i].Vacant? <==> i in m'.free
      {
        assert i in m.free <==> i == m.free[0] || i in m.free[1..];
      }
    }
  }

  lemma RemoveKeepsWellFormed<T>(m: IdMap<T>, id: nat)
    requires WellFormed(m) && Legal(m, DoRemove(id))
    ensures WellFormed(Remove(m, id))
  {
    var m' := Remove(m, id);
    if IsOwn(m.side, id) {
      assert forall k | 0 <= k < |m.free| :: m'.free[k + 1] == m.free[k];
    }
  }

  /** Every legal call keeps the vacant slots listed once each, apart from the ids in use. */
  lemma CallKeepsWellFormed<T>(m: IdMap<T>, c: Call<T>)
    requires WellFormed(m) && Legal(m, c)
    ensures WellFormed(Do(m, c))
  {
    match c
    case DoInsertNew(flag, data) => InsertNewKeepsWellFormed(m, flag, data);
    case DoRemove(id) => RemoveKeepsWellFormed(m, id);
    case _ =>
  }

  /** A new id was not in use, and no other id is disturbed. */
  lemma InsertNewIsFresh<T>(m: IdMap<T>, flag: bool, data: Option<T>)
    requires WellFormed(m)
    requires m.free != [] || |m.own| <= MAX_OBJECTS
    ensures var (m', id) := InsertNew(m, flag, data);
            IsOwn(m.side, id) && !InUse(m, id) && InUse(m', id)
            && Lookup(m', id) == data && LookupFlag(m', id) == flag
            && forall other: nat | other != id ::
                 Lookup(m', other) == Lookup(m, other) && LookupFlag(m', other) == LookupFlag(m, other)
                 && InUse(m', other) == InUse(m, other)
  {
  }

  /** What is stored at an id is found there, and nowhere else anything changes. */
  lemma InsertAtIsFound<T>(m: IdMap<T>, flag: bool, id: nat, data: Option<T>)
    requires InsertAt(m, flag, id, data).1 == None
    ensures var m' := InsertAt(m, flag, id, data).0;
            Lookup(m', id) == data && LookupFlag(m', id) == flag
            && forall other: nat | other != id ::
                 Lookup(m', other) == Lookup(m, other) && LookupFlag(m', other) == LookupFlag(m, other)
  {
  }

  /** The id just removed is the next one handed out. */
  lemma RemovedIdIsReused<T>(m: IdMap<T>, id: nat, flag: bool, data: Option<T>)
    requires WellFormed(m) && Legal(m, DoRemove(id)) && IsOwn(m.side, id)
    ensures var gone := Remove(m, id);
            Lookup(gone, id) == None && InsertNew(gone, flag, data).1 == id
            && InsertNew(gone, flag, data).0 == m.(own := m.own[Index(id) := Live(data, flag)])
  {
    assert ([Index(id)] + m.free)[1..] == m.free;
  }

  /** Every call of the run is legal in the map the calls before it lead to. */
  ghost predicate LegalRun<T>(m: IdMap<T>, calls: seq<Call<T>>)
    requires WellFormed(m)
    decreases |calls|
  {
    calls != [] ==>
      Legal(m, calls[0]) && (CallKeepsWellFormed(m, calls[0]); LegalRun(Do(m, calls[0]), calls[1..]))
  }

  ghost function RunCalls<T>(m: IdMap<T>, calls: seq<Call<T>>): (m': IdMap<T>)
    requires WellFormed(m) && LegalRun(m, calls)
    ensures WellFormed(m')
    decreases |calls|
  {
    if calls == [] then m
    else CallKeepsWellFormed(m, calls[0]); RunCalls(Do(m, calls[0]), calls[1..])
  }

  ghost predicate Touches<T>(c: Call<T>, id: nat) {
    (c.DoInsertAt? || c.DoRemove?) && c.id == id
  }

  /** An id in use keeps its value and flag through every run that does not write to
      it or remove it: in particular it is never handed out again meanwhile. */
  lemma {:induction false} StoredUntilTouched<T>(m: IdMap<T>, calls: seq<Call<T>>, id: nat)
    requires WellFormed(m) && LegalRun(m, calls) && InUse(m, id)
    requires forall k | 0 <= k < |calls| :: !Touches(calls[k], id)
    ensures var m' := RunCalls(m, calls);
            InUse(m', id) && Lookup(m', id) == Lookup(m, id) && LookupFlag(m', id) == LookupFlag(m, id)
    decreases |calls|
  {
    if calls != [] {
      var m' := Do(m, calls[0]);
      CallKeepsWellFormed(m, calls[0]);
      assert !Touches(calls[0], id);
      assert InUse(m', id) && Lookup(m', id) == Lookup(m, id) && LookupFlag(m', id) == LookupFlag(m, id);
      StoredUntilTouched(m', calls[1..], id);
    }
  }
}
