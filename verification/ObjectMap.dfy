/** `wl_map`: two arrays of tagged words. A word is a pointer, aligned to four, with
    a flag in bit 1; or, with bit 0 set, a link of the list of vacant slots, which is
    threaded through the array itself. The last vacant slot holds 0, untagged. */
module ObjectMaps {
  import opened Options
  import opened IdMaps

  /** A machine word as its two low bits and the rest. */
  datatype Word = Word(high: nat, bit1: bool, bit0: bool)

  const NULL := Word(0, false, false)

  ghost function Value(w: Word): nat {
    w.high * 4 + (if w.bit1 then 2 else 0) + (if w.bit0 then 1 else 0)
  }

  predicate EntryIsFree(w: Word) {
    w.bit0
  }

  /** Pointers are aligned to four; `EntryData` is the pointer divided by four. */
  function EntryData(w: Word): nat {
    w.high
  }

  function EntryFlag(w: Word): bool {
    w.bit1
  }

  function Pointer(data: nat): Option<nat> {
    if data == 0 then None else Some(data)
  }

  ghost function SlotOf(w: Word): Slot<nat> {
    Live(Pointer(EntryData(w)), EntryFlag(w))
  }

  /** The link to slot `i`: `i` shifted left, with the low bit set. */
  function LinkTo(i: nat): Word {
    Word(i / 2, i % 2 == 1, true)
  }

  function LinkTarget(w: Word): nat {
    w.high * 2 + (if w.bit1 then 1 else 0)
  }

  /** The bit fields are those of the masks and shifts on the numeric word. */
  lemma WordBits(w: Word, i: nat)
    ensures Value(w) % 2 == 1 <==> EntryIsFree(w)
    ensures Value(w) / 2 % 2 == 1 <==> EntryFlag(w)
    ensures Value(w) - Value(w) % 4 == EntryData(w) * 4
    ensures Value(w) / 2 == LinkTarget(w)
    ensures Value(w) == 0 <==> w == NULL
    ensures Value(LinkTo(i)) == i * 2 + 1 && LinkTarget(LinkTo(i)) == i
  {
  }

  // ---------- The array with its threaded list ----------

  /** `head` starts a list through `words` that visits exactly the slots `free`, in
      that order and once each, and ends in a word that is 0. */
  ghost predicate Chain(words: seq<Word>, head: Word, free: seq<nat>)
    decreases |free|
  {
    if free == [] then head == NULL
    else
      && free[0] < |words| && free[0] <= MAX_OBJECTS && free[0] !in free[1..]
      && head == LinkTo(free[0])
      && Chain(words, words[free[0]], free[1..])
  }

  /** The list and its vacant slots; all other words are no links. */
  ghost predicate Threaded(words: seq<Word>, head: Word, free: seq<nat>) {
    Chain(words, head, free) && NoLinks(words, free, |words|)
  }

  ghost predicate NoLinks(words: seq<Word>, free: seq<nat>, n: nat)
    requires n <= |words|
  {
    n == 0 || ((n - 1 in free || !EntryIsFree(words[n - 1])) && NoLinks(words, free, n - 1))
  }

  lemma {:induction false} NoLinksIff(words: seq<Word>, free: seq<nat>, n: nat)
    requires n <= |words|
    ensures NoLinks(words, free, n) <==> forall i | 0 <= i < n && i !in free :: !EntryIsFree(words[i])
    decreases n
  {
    if n > 0 {
      NoLinksIff(words, free, n - 1);
    }
  }

  /** Words outside the list do not matter to it. */
  lemma {:induction false} ChainFrame(words: seq<Word>, words': seq<Word>, head: Word, free: seq<nat>)
    requires Chain(words, head, free) && |words| <= |words'|
    requires forall i | 0 <= i < |words| && i in free :: words'[i] == words[i]
    ensures Chain(words', head, free)
    decreases |free|
  {
    if free != [] {
      ChainFrame(words, words', words[free[0]], free[1..]);
    }
  }

  lemma {:induction false} ChainIsVacant(words: seq<Word>, head: Word, free: seq<nat>)
    requires Chain(words, head, free)
    ensures head == NULL || EntryIsFree(head)
    ensures forall k | 0 <= k < |free| ::
      free[k] < |words| && free[k] <= MAX_OBJECTS && (words[free[k]] == NULL || EntryIsFree(words[free[k]]))
    ensures forall j, k | 0 <= j < k < |free| :: free[j] != free[k]
    decreases |free|
  {
    if free != [] {
      ChainIsVacant(words, words[free[0]], free[1..]);
      assert forall k | 0 < k < |free| :: free[k] == free[1..][k - 1];
    }
  }

  ghost function SlotsTo(words: seq<Word>, free: seq<nat>, n: nat): (s: seq<Slot<nat>>)
    requires n <= |words|
    ensures |s| == n
  {
    if n == 0 then []
    else SlotsTo(words, free, n - 1) + [if n - 1 in free then Vacant else SlotOf(words[n - 1])]
  }

  ghost function Slots(words: seq<Word>, free: seq<nat>): (s: seq<Slot<nat>>)
    ensures |s| == |words|
  {
    SlotsTo(words, free, |words|)
  }

  lemma {:induction false} SlotsToAre(words: seq<Word>, free: seq<nat>, n: nat)
    requires n <= |words|
    ensures forall i | 0 <= i < n ::
      SlotsTo(words, free, n)[i] == if i in free then Vacant else SlotOf(words[i])
    decreases n
  {
    if n > 0 {
      SlotsToAre(words, free, n - 1);
    }
  }

  /** What the table and its list mean, slot by slot. */
  lemma Open(words: seq<Word>, free: seq<nat>)
    ensures NoLinks(words, free, |words|) <==> forall i | 0 <= i < |words| && i !in free :: !EntryIsFree(words[i])
    ensures forall i | 0 <= i < |words| :: Slots(words, free)[i] == if i in free then Vacant else SlotOf(words[i])
  {
    NoLinksIff(words, free, |words|);
    SlotsToAre(words, free, |words|);
  }

  /** Following the head of the list and storing into that slot. */
  lemma PopSlot(words: seq<Word>, head: Word, free: seq<nat>, word: Word)
    requires Threaded(words, head, free) && head != NULL && !EntryIsFree(word)
    ensures var i := LinkTarget(head);
            free != [] && i == free[0] < |words|
            && Threaded(words[i := word], words[i], free[1..])
            && Slots(words[i := word], free[1..]) == Slots(words, free)[i := SlotOf(word)]
  {
    WordBits(head, free[0]);
    Open(words, free);
    Open(words[free[0] := word], free[1..]);
    ChainFrame(words, words[free[0] := word], words[free[0]], free[1..]);
    assert forall x :: x in free <==> x == free[0] || x in free[1..];
  }

  lemma AppendSlot(words: seq<Word>, head: Word, free: seq<nat>, word: Word)
    requires Threaded(words, head, free) && !EntryIsFree(word)
    ensures Threaded(words + [word], head, free)
    ensures Slots(words + [word], free) == Slots(words, free) + [SlotOf(word)]
  {
    Open(words, free);
    Open(words + [word], free);
    ChainFrame(words, words + [word], head, free);
    ChainIsVacant(words, head, free);
  }

  lemma StoreSlot(words: seq<Word>, head: Word, free: seq<nat>, i: nat, word: Word)
    requires Threaded(words, head, free) && !EntryIsFree(word) && i < |words| && i !in free
    ensures Threaded(words[i := word], head, free)
    ensures Slots(words[i := word], free) == Slots(words, free)[i := SlotOf(word)]
  {
    Open(words, free);
    Open(words[i := word], free);
    ChainFrame(words, words[i := word], head, free);
  }

  /** Linking a slot in front of the list. */
  lemma PushSlot(words: seq<Word>, head: Word, free: seq<nat>, i: nat)
    requires Threaded(words, head, free) && i < |words| && i <= MAX_OBJECTS && i !in free
    ensures Threaded(words[i := head], LinkTo(i), [i] + free)
    ensures Slots(words[i := head], [i] + free) == Slots(words, free)[i := Vacant]
  {
    Open(words, free);
    Open(words[i := head], [i] + free);
    ChainFrame(words, words[i := head], head, free);
    assert ([i] + free)[1..] == free;
    assert forall x :: x in [i] + free <==> x == i || x in free;
  }

  /** Reading a word gives what its slot holds: a vacant slot is tagged, or else it
      is the last of the list and reads as a null entry. */
  lemma ReadSlot(words: seq<Word>, head: Word, free: seq<nat>, i: nat)
    requires Threaded(words, head, free) && i < |words|
    ensures var s := Slots(words, free)[i];
            if EntryIsFree(words[i]) then s == Vacant
            else if s == Vacant then words[i] == NULL
            else s.data == Pointer(EntryData(words[i])) && s.flag == EntryFlag(words[i])
  {
    Open(words, free);
    ChainIsVacant(words, head, free);
  }

  // ---------- The map ----------

  class ObjectMap {
    const side: Side
    var clientEntries: seq<Word>
    var serverEntries: seq<Word>
    var freeList: Word
    ghost var free: seq<nat>

    constructor (side: Side)
      ensures Valid() && View() == IdMap(side, [], [], [])
    {
      this.side := side;
      clientEntries, serverEntries, freeList, free := [], [], NULL, [];
    }

    ghost function Own(): seq<Word>
      reads this
    {
      if side == Client then clientEntries else serverEntries
    }

    ghost function Peer(): seq<Word>
      reads this
    {
      if side == Client then serverEntries else clientEntries
    }

    ghost predicate Valid()
      reads this
    {
      Threaded(Own(), freeList, free) && Threaded(Peer(), NULL, [])
    }

    ghost function View(): IdMap<nat>
      reads this
    {
      IdMap(side, Slots(Own(), free), free, Slots(Peer(), []))
    }

    lemma ViewIsWellFormed()
      requires Valid()
      ensures WellFormed(View())
    {
      Open(Own(), free);
      Open(Peer(), []);
      ChainIsVacant(Own(), freeList, free);
    }

    /** Writes back the table `entries` after a change. */
    method Store(clientSide: bool, entries: seq<Word>, head: Word, ghost vacant: seq<nat>)
      requires Valid()
      requires if clientSide == (side == Client) then Threaded(entries, head, vacant)
               else head == freeList && vacant == free && Threaded(entries, NULL, [])
      modifies this
      ensures Valid()
      ensures View() == if clientSide == (side == Client)
                        then old(View()).(own := Slots(entries, vacant), free := vacant)
                        else old(View()).(peer := Slots(entries, []))
    {
      if clientSide {
        clientEntries := entries;
      } else {
        serverEntries := entries;
      }
      freeList, free := head, vacant;
    }

    /** Takes the most recently vacated slot. */
    method Recycle(start: seq<Word>, word: Word) returns (count: nat)
      requires Valid() && start == Own() && freeList != NULL && !EntryIsFree(word)
      modifies this
      ensures Valid()
      ensures old(View()).free != [] && count == old(View()).free[0] <= MAX_OBJECTS && count < |old(View()).own|
      ensures View() == old(View()).(own := old(View()).own[count := SlotOf(word)], free := old(View()).free[1..])
    {
      count := LinkTarget(freeList);
      PopSlot(start, freeList, free, word);
      Store(side == Client, start[count := word], start[count], free[1..]);
    }

    method InsertNew(flag: bool, data: nat) returns (id: nat)
      requires Valid()
      modifies this
      ensures Valid()
      ensures View() == IdMaps.InsertNew(old(View()), flag, Pointer(data)).0
      ensures id == IdMaps.InsertNew(old(View()), flag, Pointer(data)).1
    {
      var start, base := clientEntries, 0;
      if side == Server {
        start, base := serverEntries, SERVER_ID_START;
      }
      var count;
      if freeList != NULL {
        count := Recycle(start, Word(data, flag, false));
        return count + base;
      }
      count := |start|;
      var word := if count > MAX_OBJECTS then NULL else Word(data, flag, false);
      AppendSlot(start, freeList, free, word);
      Store(side == Client, start + [word], freeList, free);
      return if count > MAX_OBJECTS then 0 else count + base;
    }

    method InsertAt(flag: bool, id: nat, data: nat) returns (r: Option<Error>)
      requires Valid()
      requires Legal(View(), DoInsertAt(flag, id, Pointer(data)))
      modifies this
      ensures Valid()
      ensures (View(), r) == IdMaps.InsertAt(old(View()), flag, id, Pointer(data))
    {
      var entries, i := clientEntries, id;
      if id >= SERVER_ID_START {
        entries, i := serverEntries, id - SERVER_ID_START;
      }
      assert |Table(View(), id)| == |entries| && i == Index(id);
      if i > MAX_OBJECTS {
        return Some(NoSpace);
      }
      if |entries| < i {
        return Some(Invalid);
      }
      ghost var head, vacant := NULL, [];
      if IsOwn(side, id) {
        head, vacant := freeList, free;
      }
      Open(entries, vacant);
      if |entries| == i {
        AppendSlot(entries, head, vacant, Word(data, flag, false));
        entries := entries + [Word(data, flag, false)];
      } else {
        StoreSlot(entries, head, vacant, i, Word(data, flag, false));
        entries := entries[i := Word(data, flag, false)];
      }
      Store(id < SERVER_ID_START, entries, freeList, free);
      return None;
    }

    method ReserveNew(id: nat) returns (r: Option<Error>)
      requires Valid()
      modifies this
      ensures Valid()
      ensures (View(), r) == IdMaps.ReserveNew(old(View()), id)
    {
      var entries, i := clientEntries, id;
      if id < SERVER_ID_START {
        if side == Client {
          return Some(Invalid);
        }
      } else {
        if side == Server {
          return Some(Invalid);
        }
        entries, i := serverEntries, id - SERVER_ID_START;
      }
      assert |Table(View(), id)| == |entries| && i == Index(id);
      if i > MAX_OBJECTS {
        return Some(NoSpace);
      }
      if |entries| < i {
        return Some(Invalid);
      }
      Open(entries, []);
      if |entries| == i {
        AppendSlot(entries, NULL, [], NULL);
        Store(id < SERVER_ID_START, entries + [NULL], freeList, free);
      } else if entries[i] != NULL {
        return Some(Invalid);
      }
      return None;
    }

    method Remove(id: nat)
      requires Valid() && Legal(View(), DoRemove(id))
      modifies this
      ensures Valid()
      ensures View() == IdMaps.Remove(old(View()), id)
    {
      var entries, i := clientEntries, id;
      if id < SERVER_ID_START {
        if side == Server {
          return;
        }
      } else {
        if side == Client {
          return;
        }
        entries, i := serverEntries, id - SERVER_ID_START;
      }
      assert |View().own| == |entries| && i == Index(id);
      Open(entries, free);
      PushSlot(entries, freeList, free, i);
      Store(id < SERVER_ID_START, entries[i := freeList], LinkTo(i), [i] + free);
    }

    method Lookup(id: nat) returns (data: nat)
      requires Valid()
      ensures Pointer(data) == IdMaps.Lookup(View(), id)
    {
      var entries, i := clientEntries, id;
      if id >= SERVER_ID_START {
        entries, i := serverEntries, id - SERVER_ID_START;
      }
      assert |entries| == |Table(View(), id)| && i == Index(id);
      if i < |entries| {
        ReadEntry(id);
        if !EntryIsFree(entries[i]) {
          return EntryData(entries[i]);
        }
      }
      return 0;
    }

    method LookupFlags(id: nat) returns (flag: bool)
      requires Valid()
      ensures flag == IdMaps.LookupFlag(View(), id)
    {
      var entries, i := clientEntries, id;
      if id >= SERVER_ID_START {
        entries, i := serverEntries, id - SERVER_ID_START;
      }
      assert |entries| == |Table(View(), id)| && i == Index(id);
      if i < |entries| {
        ReadEntry(id);
        if !EntryIsFree(entries[i]) {
          return EntryFlag(entries[i]);
        }
      }
      return false;
    }

    lemma ReadEntry(id: nat)
      requires Valid()
      requires Index(id) < |if id < SERVER_ID_START then clientEntries else serverEntries|
      ensures Index(id) < |Table(View(), id)|
      ensures var w := (if id < SERVER_ID_START then clientEntries else serverEntries)[Index(id)];
              var s := Table(View(), id)[Index(id)];
              if EntryIsFree(w) then s == Vacant
              else if s == Vacant then w == NULL
              else s.data == Pointer(EntryData(w)) && s.flag == EntryFlag(w)
    {
      if IsOwn(side, id) {
        ReadSlot(Own(), freeList, free, Index(id));
      } else {
        ReadSlot(Peer(), NULL, [], Index(id));
      }
    }
  }
}
