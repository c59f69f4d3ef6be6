/** What a client remembers of a destroyed object until the server has let go of its
    id: how many descriptors come with each of its events. */
module Zombies {
  import opened Signatures

  /** The signatures of the events of an interface. */
  type Interface = seq<string>

  function CountFds(ds: seq<Detail>): nat {
    if ds == [] then 0 else (if ds[0].letter == 'h' then 1 else 0) + CountFds(ds[1..])
  }

  function EventFds(i: Interface, opcode: nat): nat {
    if opcode < |i| then CountFds(Parse(i[opcode])) else 0
  }

  method MessageCountFds(signature: string) returns (fds: nat)
    ensures fds == CountFds(Parse(signature))
  {
    fds := 0;
    var sig := signature;
    var count := ArgCountForSignature(signature);
    for i := 0 to count
      invariant |Parse(sig)| == count - i
      invariant fds + CountFds(Parse(sig)) == CountFds(Parse(signature))
    {
      var d;
      d, sig := GetNextArgument(sig);
      if d.letter == 'h' {
        fds := fds + 1;
      }
    }
  }

  datatype Zombie = NoZombie | Zombie(fdCount: seq<nat>)

  /** How many descriptors are closed with an event for a zombie. */
  function ZombieFds(z: Zombie, opcode: nat): nat {
    if z.Zombie? && opcode < |z.fdCount| then z.fdCount[opcode] else 0
  }

  /** A zombie stands in for every event, whether it knows of it or not; there is none
      exactly when no event carries descriptors. */
  ghost predicate StandsFor(z: Zombie, i: Interface) {
    && (forall opcode: nat :: ZombieFds(z, opcode) == EventFds(i, opcode))
    && (z.NoZombie? <==> forall opcode: nat :: EventFds(i, opcode) == 0)
    && (z.Zombie? ==> |z.fdCount| == |i|)
  }

  method PrepareZombie(interface: Interface) returns (z: Zombie)
    ensures StandsFor(z, interface)
  {
    z := NoZombie;
    for i := 0 to |interface|
      invariant z.Zombie? ==> |z.fdCount| == |interface|
      invariant z.NoZombie? ==> forall opcode: nat | opcode < i :: EventFds(interface, opcode) == 0
      invariant z.Zombie? ==> exists opcode: nat | opcode < i :: EventFds(interface, opcode) != 0
      invariant forall opcode: nat | opcode < i :: ZombieFds(z, opcode) == EventFds(interface, opcode)
      invariant forall opcode: nat | i <= opcode :: ZombieFds(z, opcode) == 0
    {
      var count := MessageCountFds(interface[i]);
      assert count == EventFds(interface, i);
      ghost var was := z;
      if count != 0 {
        if z.NoZombie? {
          z := Zombie(seq(|interface|, _ => 0));
        }
        z := Zombie(z.fdCount[i := count]);
      }
      forall opcode: nat
        ensures ZombieFds(z, opcode) == if opcode == i then count else ZombieFds(was, opcode)
      {
      }
    }
  }

  /** The zombie, as a function. */
  function ZombieOf(i: Interface): Zombie {
    if forall opcode: nat | opcode < |i| :: EventFds(i, opcode) == 0 then NoZombie
    else Zombie(seq(|i|, (k: nat) => EventFds(i, k)))
  }

  lemma ZombieOfStands(i: Interface)
    ensures StandsFor(ZombieOf(i), i)
  {
    if forall opcode: nat | opcode < |i| :: EventFds(i, opcode) == 0 {
      assert forall opcode: nat :: EventFds(i, opcode) == 0;
    }
  }

  /** There is no other. */
  lemma ZombieIsUnique(z: Zombie, i: Interface)
    requires StandsFor(z, i)
    ensures z == ZombieOf(i)
  {
    ZombieOfStands(i);
    if z.Zombie? {
      assert ZombieOf(i).Zombie?;
      forall k | 0 <= k < |i|
        ensures z.fdCount[k] == ZombieOf(i).fdCount[k]
      {
        assert ZombieFds(z, k) == EventFds(i, k) == ZombieFds(ZombieOf(i), k);
      }
    }
  }
}
