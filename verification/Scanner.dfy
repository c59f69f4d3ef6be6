/** The scanner: it packs the interfaces of all messages of a protocol into one table,
    and writes signatures that the library reads back when it runs. */
module Scanners {
  import opened Options
  import opened Signatures

  datatype ArgType = NEW_ID | INT | UNSIGNED | FIXED | STRING | OBJECT | ARRAY | FD

  datatype Arg = Arg(kind: ArgType, nullable: bool, interface: Option<string>)

  class Message {
    const since: nat
    const args: seq<Arg>
    var allNull: bool
    var typeIndex: nat

    constructor (since: nat, args: seq<Arg>)
      ensures this.since == since && this.args == args
    {
      this.since, this.args := since, args;
    }
  }

  // ---------- What a message means ----------

  function Letter(kind: ArgType): char {
    match kind
    case NEW_ID => 'n'
    case INT => 'i'
    case UNSIGNED => 'u'
    case FIXED => 'f'
    case STRING => 's'
    case OBJECT => 'o'
    case ARRAY => 'a'
    case FD => 'h'
  }

  /** An argument on the wire, with the interface of the object it stands for. */
  datatype Slot = Slot(detail: Detail, interface: Option<string>)

  predicate IsNullableType(a: Arg) {
    a.kind == STRING || a.kind == OBJECT
  }

  /** A new object of an interface that is not known beforehand comes with its name and
      version. */
  function Expanded(a: Arg): seq<Slot> {
    var own := Slot(Detail(Letter(a.kind), IsNullableType(a) && a.nullable),
                    if a.kind == NEW_ID || a.kind == OBJECT then a.interface else None);
    if a.kind == NEW_ID && a.interface == None
    then [Slot(Detail('s', false), None), Slot(Detail('u', false), None), own]
    else [own]
  }

  function Slots(args: seq<Arg>): seq<Slot> {
    if args == [] then [] else Slots(args[..|args| - 1]) + Expanded(args[|args| - 1])
  }

  function Details(slots: seq<Slot>): seq<Detail> {
    seq(|slots|, (i: nat) requires i < |slots| => slots[i].detail)
  }

  function Types(slots: seq<Slot>): seq<Option<string>> {
    seq(|slots|, (i: nat) requires i < |slots| => slots[i].interface)
  }

  predicate AllNull(slots: seq<Slot>) {
    forall i | 0 <= i < |slots| :: slots[i].interface == None
  }

  lemma SlotsOneMore(args: seq<Arg>, i: nat)
    requires i < |args|
    ensures Slots(args[..i + 1]) == Slots(args[..i]) + Expanded(args[i])
  {
    assert args[..i + 1][..i] == args[..i];
  }

  // ---------- Signatures ----------

  function Decimal(n: nat): string {
    if n < 10 then [Digit(n)] else Decimal(n / 10) + [Digit(n % 10)]
  }

  function Digit(n: nat): char
    requires n < 10
  {
    '0' + n as char
  }

  /** The number that a string of digits continues. */
  lemma {:induction false} AtoiDigit(s: string, d: nat, rest: string, acc: nat)
    requires d < 10 && (forall k | 0 <= k < |s| :: IsDigit(s[k])) && (rest == [] || !IsDigit(rest[0]))
    ensures Atoi(s + [Digit(d)] + rest, acc) == Atoi(s, acc) * 10 + d
    decreases |s|
  {
    var all := s + [Digit(d)] + rest;
    if s == [] {
      assert all[1..] == rest;
    } else {
      assert all[1..] == s[1..] + [Digit(d)] + rest;
      AtoiDigit(s[1..], d, rest, acc * 10 + DigitValue(s[0]));
    }
  }

  lemma {:induction false} DecimalDigits(n: nat)
    ensures |Decimal(n)| > 0 && forall k | 0 <= k < |Decimal(n)| :: IsDigit(Decimal(n)[k])
  {
    if n >= 10 {
      DecimalDigits(n / 10);
    }
  }

  /** A number in front of a signature is read back. */
  lemma {:induction false} AtoiDecimal(n: nat, rest: string)
    requires rest == [] || !IsDigit(rest[0])
    ensures Atoi(Decimal(n) + rest, 0) == n
  {
    if n < 10 {
      assert (Decimal(n) + rest)[1..] == rest;
    } else {
      DecimalDigits(n / 10);
      AtoiDigit(Decimal(n / 10), n % 10, rest, 0);
      AtoiDecimal(n / 10, []);
      assert Decimal(n / 10) + [] == Decimal(n / 10);
    }
  }

  lemma {:induction false} ParseSkipsDigits(s: string, rest: string, nullable: bool)
    requires forall k | 0 <= k < |s| :: IsDigit(s[k])
    ensures ParseFrom(s + rest, nullable) == ParseFrom(rest, nullable)
    decreases |s|
  {
    if s == [] {
      assert s + rest == rest;
    } else {
      ParseSkipsDigits(s[1..], rest, nullable);
      assert (s + rest)[1..] == s[1..] + rest;
    }
  }

  function ArgText(a: Arg): string {
    (if IsNullableType(a) && a.nullable then "?" else "")
    + (if a.kind == NEW_ID && a.interface == None then "su" else "")
    + [Letter(a.kind)]
  }

  /** Whole arguments, one after the other: the text does not end in a question mark. */
  ghost predicate Reads(s: string, ds: seq<Detail>) {
    forall rest: string :: Parse(s + rest) == ds + Parse(rest)
  }

  lemma OneLetter(c: char, nullable: bool, rest: string)
    requires IsArgLetter(c)
    ensures ParseFrom([c] + rest, nullable) == [Detail(c, nullable)] + Parse(rest)
  {
    assert ([c] + rest)[1..] == rest;
  }

  lemma ArgTextReads(a: Arg)
    ensures Reads(ArgText(a), Details(Expanded(a)))
  {
    var c := Letter(a.kind);
    var ds := Details(Expanded(a));
    assert ds == if a.kind == NEW_ID && a.interface == None
                 then [Detail('s', false), Detail('u', false), Detail(c, false)]
                 else [Detail(c, IsNullableType(a) && a.nullable)];
    forall rest: string
      ensures Parse(ArgText(a) + rest) == ds + Parse(rest)
    {
      if IsNullableType(a) && a.nullable {
        assert ArgText(a) + rest == ['?'] + ([c] + rest);
        QuestionMark(c, rest);
      } else if a.kind == NEW_ID && a.interface == None {
        assert ArgText(a) + rest == ['s'] + (['u'] + ([c] + rest));
        ThreeLetters(c, rest);
      } else {
        assert ArgText(a) + rest == [c] + rest;
        OneLetter(c, false, rest);
      }
    }
  }

  lemma QuestionMark(c: char, rest: string)
    requires IsArgLetter(c)
    ensures Parse(['?'] + ([c] + rest)) == [Detail(c, true)] + Parse(rest)
  {
    assert (['?'] + ([c] + rest))[1..] == [c] + rest;
    OneLetter(c, true, rest);
  }

  lemma ThreeLetters(c: char, rest: string)
    requires IsArgLetter(c)
    ensures Parse(['s'] + (['u'] + ([c] + rest)))
      == [Detail('s', false), Detail('u', false), Detail(c, false)] + Parse(rest)
  {
    OneLetter('s', false, ['u'] + ([c] + rest));
    OneLetter('u', false, [c] + rest);
    OneLetter(c, false, rest);
  }

  lemma ReadsConcat(s: string, ds: seq<Detail>, s2: string, ds2: seq<Detail>)
    requires Reads(s, ds) && Reads(s2, ds2)
    ensures Reads(s + s2, ds + ds2)
  {
    forall rest: string
      ensures Parse(s + s2 + rest) == ds + ds2 + Parse(rest)
    {
      assert s + s2 + rest == s + (s2 + rest);
      assert Parse(s + (s2 + rest)) == ds + Parse(s2 + rest);
    }
  }

  lemma NothingReads()
    ensures Reads("", [])
  {
    forall rest: string
      ensures Parse("" + rest) == [] + Parse(rest)
    {
      assert "" + rest == rest;
    }
  }

  lemma ReadsOneMore(text: string, args: seq<Arg>, i: nat)
    requires i < |args| && Reads(text, Details(Slots(args[..i])))
    ensures Reads(text + ArgText(args[i]), Details(Slots(args[..i + 1])))
  {
    ArgTextReads(args[i]);
    SlotsOneMore(args, i);
    ReadsConcat(text, Details(Slots(args[..i])), ArgText(args[i]), Details(Expanded(args[i])));
    assert Details(Slots(args[..i + 1])) == Details(Slots(args[..i])) + Details(Expanded(args[i]));
  }

  /** A version in front of the arguments, or none, leaves both readable. */
  lemma SignatureReads(since: nat, text: string, ds: seq<Detail>)
    requires Reads(text, ds) && (text == [] || !IsDigit(text[0]))
    ensures var signature := (if since > 1 then Decimal(since) else "") + text;
            Parse(signature) == ds && GetSince(signature) == if since == 0 then 1 else since
  {
    assert Parse(text + []) == ds + Parse([]) && text + [] == text;
    if since > 1 {
      DecimalDigits(since);
      ParseSkipsDigits(Decimal(since), text, false);
      AtoiDecimal(since, text);
    } else {
      assert "" + text == text;
    }
  }

  /** Writes the signature of a message: the library reads back every argument with its
      type and whether it may be null, and the version if there is one. */
  method EmitSignature(m: Message) returns (signature: string)
    ensures Parse(signature) == Details(Slots(m.args))
    ensures GetSince(signature) == m.since <==> m.since >= 1
    ensures m.since == 0 ==> GetSince(signature) == 1
  {
    var prefix := if m.since > 1 then Decimal(m.since) else "";
    var text := "";
    NothingReads();
    for i := 0 to |m.args|
      invariant Reads(text, Details(Slots(m.args[..i])))
      invariant text == [] || !IsDigit(text[0])
    {
      ReadsOneMore(text, m.args, i);
      text := text + ArgText(m.args[i]);
    }
    assert m.args[..|m.args|] == m.args;
    SignatureReads(m.since, text, Details(Slots(m.args)));
    signature := prefix + text;
  }

  // ---------- The table ----------

  function Nulls(n: nat): seq<Option<string>> {
    seq(n, _ => None)
  }

  ghost predicate Distinct(ms: seq<Message>) {
    forall i, j | 0 <= i < j < |ms| :: ms[i] != ms[j]
  }

  /** The row at `index` is the interfaces of these arguments. */
  ghost predicate RowAt(args: seq<Arg>, index: nat, table: seq<Option<string>>) {
    index + |Slots(args)| <= |table| && table[index..index + |Slots(args)|] == Types(Slots(args))
  }

  lemma RowBehind(args: seq<Arg>, table: seq<Option<string>>)
    ensures |Types(Slots(args))| == |Slots(args)|
    ensures RowAt(args, |table|, table + Types(Slots(args)))
  {
  }

  lemma RowStays(args: seq<Arg>, index: nat, table: seq<Option<string>>, table': seq<Option<string>>)
    requires RowAt(args, index, table) && table <= table'
    ensures RowAt(args, index, table')
  {
    var n := |Slots(args)|;
    assert table'[index..index + n] == table[index..index + n];
  }

  /** The first pass over a message has been made: a message without interfaces fits
      into the run of nulls. */
  ghost predicate Measured(m: Message, nullRun: nat)
    reads m
  {
    m.allNull == AllNull(Slots(m.args)) && (m.allNull ==> |Slots(m.args)| <= nullRun)
  }

  /** A message has its place in the table, for good. */
  ghost predicate Placed(m: Message, table: seq<Option<string>>, nullRun: nat)
    reads m
  {
    && Measured(m, nullRun) && RowAt(m.args, m.typeIndex, table)
    && (if m.allNull then m.typeIndex == 0 else m.typeIndex >= nullRun)
  }

  /** A protocol: its lists of messages are the requests and the events of each
      interface in turn. */
  class Protocol {
    const lists: seq<seq<Message>>
    var typeIndex: nat
    var nullRunLength: nat

    constructor (lists: seq<seq<Message>>)
      ensures this.lists == lists && typeIndex == 0 && nullRunLength == 0
    {
      this.lists, typeIndex, nullRunLength := lists, 0, 0;
    }

    method Measure(m: Message)
      modifies m`allNull, this`nullRunLength
      ensures Measured(m, nullRunLength)
      ensures nullRunLength
        == if m.allNull && |Slots(m.args)| > old(nullRunLength) then |Slots(m.args)| else old(nullRunLength)
    {
      var length := 0;
      m.allNull := true;
      for i := 0 to |m.args|
        invariant length == |Slots(m.args[..i])| && m.allNull == AllNull(Slots(m.args[..i]))
        invariant nullRunLength == old(nullRunLength)
      {
        SlotsOneMore(m.args, i);
        AllNullOneMore(Slots(m.args[..i]), Expanded(m.args[i]));
        ExpandedNull(m.args[i]);
        var a := m.args[i];
        length := length + 1;
        if a.kind == NEW_ID && a.interface == None {
          length := length + 2;
        }
        if (a.kind == NEW_ID || a.kind == OBJECT) && a.interface != None {
          m.allNull := false;
        }
      }
      assert m.args[..|m.args|] == m.args;
      if m.allNull && length > nullRunLength {
        nullRunLength := length;
      }
    }

    /** The first pass. */
    method EmitTypesForwardDeclarations(ms: seq<Message>)
      requires Distinct(ms)
      modifies ms, this`nullRunLength
      ensures nullRunLength >= old(nullRunLength)
      ensures forall k | 0 <= k < |ms| :: Measured(ms[k], nullRunLength)
    {
      for i := 0 to |ms|
        invariant nullRunLength >= old(nullRunLength)
        invariant forall k | 0 <= k < i :: Measured(ms[k], nullRunLength)
      {
        Measure(ms[i]);
      }
    }

    /** The cells of an argument. */
    method EmitCells(a: Arg) returns (cells: seq<Option<string>>)
      modifies this`typeIndex
      ensures cells == Types(Expanded(a)) && typeIndex == old(typeIndex) + |cells|
    {
      cells := [];
      typeIndex := typeIndex + 1;
      if a.kind == NEW_ID && a.interface == None {
        cells := [None, None];
        typeIndex := typeIndex + 2;
      }
      cells := cells + [if a.kind == NEW_ID || a.kind == OBJECT then a.interface else None];
    }

    /** Appends the row of a message. */
    method EmitRow(m: Message, table: seq<Option<string>>) returns (table': seq<Option<string>>)
      requires |table| == nullRunLength + typeIndex
      modifies m`typeIndex, this`typeIndex
      ensures table <= table' && |table'| == nullRunLength + typeIndex
      ensures RowAt(m.args, m.typeIndex, table') && m.typeIndex == |table|
    {
      table' := table;
      m.typeIndex := nullRunLength + typeIndex;
      for i := 0 to |m.args|
        invariant m.typeIndex == |table|
        invariant table' == table + Types(Slots(m.args[..i])) && |table'| == nullRunLength + typeIndex
      {
        SlotsOneMore(m.args, i);
        TypesAppend(Slots(m.args[..i]), Expanded(m.args[i]));
        var cells := EmitCells(m.args[i]);
        table' := table' + cells;
      }
      assert m.args[..|m.args|] == m.args;
      RowBehind(m.args, table);
    }

    /** Gives a message its place. Messages without interfaces all use the run of nulls. */
    method Place(m: Message, table: seq<Option<string>>) returns (table': seq<Option<string>>)
      requires Measured(m, nullRunLength)
      requires Nulls(nullRunLength) <= table && |table| == nullRunLength + typeIndex
      modifies m`typeIndex, this`typeIndex
      ensures table <= table' && |table'| == nullRunLength + typeIndex && Placed(m, table', nullRunLength)
    {
      if m.allNull {
        m.typeIndex := 0;
        NullRow(m, nullRunLength, table);
        table' := table;
      } else {
        table' := EmitRow(m, table);
      }
    }

    /** The second pass. */
    method EmitTypes(ms: seq<Message>, table: seq<Option<string>>) returns (table': seq<Option<string>>)
      requires Distinct(ms) && forall k | 0 <= k < |ms| :: Measured(ms[k], nullRunLength)
      requires Nulls(nullRunLength) <= table && |table| == nullRunLength + typeIndex
      modifies ms, this`typeIndex
      ensures table <= table' && |table'| == nullRunLength + typeIndex
      ensures forall k | 0 <= k < |ms| :: Placed(ms[k], table', nullRunLength)
    {
      table' := table;
      for i := 0 to |ms|
        invariant table <= table' && |table'| == nullRunLength + typeIndex
        invariant forall k | i <= k < |ms| :: Measured(ms[k], nullRunLength)
        invariant forall k | 0 <= k < i :: Placed(ms[k], table', nullRunLength)
      {
        ghost var before := table';
        table' := Place(ms[i], table');
        forall k | 0 <= k < i
          ensures Placed(ms[k], table', nullRunLength)
        {
          RowStays(ms[k].args, ms[k].typeIndex, before, table');
        }
      }
    }
  }

  lemma NullRow(m: Message, nullRun: nat, table: seq<Option<string>>)
    requires Measured(m, nullRun) && m.allNull && m.typeIndex == 0 && Nulls(nullRun) <= table
    ensures RowAt(m.args, m.typeIndex, table)
  {
    var n := |Slots(m.args)|;
    assert table[..n] == Nulls(nullRun)[..n] == Types(Slots(m.args));
  }

  lemma TypesAppend(slots: seq<Slot>, more: seq<Slot>)
    ensures Types(slots + more) == Types(slots) + Types(more)
  {
  }

  lemma ExpandedNull(a: Arg)
    ensures AllNull(Expanded(a)) <==> !((a.kind == NEW_ID || a.kind == OBJECT) && a.interface != None)
  {
    assert Expanded(a)[|Expanded(a)| - 1].interface
      == if a.kind == NEW_ID || a.kind == OBJECT then a.interface else None;
  }

  lemma AllNullOneMore(slots: seq<Slot>, more: seq<Slot>)
    ensures AllNull(slots + more) <==> AllNull(slots) && AllNull(more)
  {
    assert forall i | 0 <= i < |more| :: (slots + more)[|slots| + i] == more[i];
    assert forall i | 0 <= i < |slots| :: (slots + more)[i] == slots[i];
  }

  // ---------- The generated code ----------

  /** An entry of a message array: the signature and the place of its row. */
  datatype Entry = Entry(signature: string, index: nat)

  /** An entry that the library reads back as the message it was made from. */
  ghost predicate Faithful(m: Message, e: Entry, table: seq<Option<string>>) {
    var slots := Slots(m.args);
    && Parse(e.signature) == Details(slots)
    && (GetSince(e.signature) == m.since <==> m.since >= 1)
    && e.index + |slots| <= |table|
    && forall k | 0 <= k < |slots| :: table[e.index + k] == slots[k].interface
  }

  lemma RowEntry(m: Message, table: seq<Option<string>>, k: nat)
    requires RowAt(m.args, m.typeIndex, table) && k < |Slots(m.args)|
    ensures table[m.typeIndex + k] == Slots(m.args)[k].interface
  {
    var n := |Slots(m.args)|;
    assert table[m.typeIndex + k] == table[m.typeIndex..m.typeIndex + n][k] == Types(Slots(m.args))[k];
  }

  method EmitMessages(ms: seq<Message>, ghost table: seq<Option<string>>) returns (entries: seq<Entry>)
    requires forall k | 0 <= k < |ms| :: RowAt(ms[k].args, ms[k].typeIndex, table)
    ensures |entries| == |ms| && forall i | 0 <= i < |ms| :: Faithful(ms[i], entries[i], table)
    ensures forall i | 0 <= i < |ms| :: entries[i].index == ms[i].typeIndex
  {
    entries := [];
    for i := 0 to |ms|
      invariant |entries| == i
      invariant forall k | 0 <= k < i :: Faithful(ms[k], entries[k], table) && entries[k].index == ms[k].typeIndex
    {
      var signature := EmitSignature(ms[i]);
      var e := Entry(signature, ms[i].typeIndex);
      assert RowAt(ms[i].args, ms[i].typeIndex, table);
      forall k | 0 <= k < |Slots(ms[i].args)|
        ensures table[e.index + k] == Slots(ms[i].args)[k].interface
      {
        RowEntry(ms[i], table, k);
      }
      entries := entries + [e];
    }
  }

  ghost function MessagesOf(lists: seq<seq<Message>>): set<Message> {
    set i, k | 0 <= i < |lists| && 0 <= k < |lists[i]| :: lists[i][k]
  }

  ghost predicate Separate(lists: seq<seq<Message>>) {
    && (forall i | 0 <= i < |lists| :: Distinct(lists[i]))
    && (forall i, j | 0 <= i < j < |lists| :: forall m <- lists[i] :: m !in lists[j])
  }

  ghost predicate AllMeasured(ms: seq<Message>, nullRun: nat)
    reads ms
  {
    forall k | 0 <= k < |ms| :: Measured(ms[k], nullRun)
  }

  ghost predicate AllPlaced(ms: seq<Message>, table: seq<Option<string>>, nullRun: nat)
    reads ms
  {
    forall k | 0 <= k < |ms| :: Placed(ms[k], table, nullRun)
  }

  method MeasureAll(p: Protocol)
    requires Separate(p.lists)
    modifies p`nullRunLength, MessagesOf(p.lists)
    ensures MeasuredFrom(p.lists, 0, p.nullRunLength)
  {
    for i := 0 to |p.lists|
      invariant MeasuredUpTo(p.lists, i, p.nullRunLength)
    {
      MeasureNext(p, i);
    }
  }

  ghost predicate MeasuredUpTo(lists: seq<seq<Message>>, i: nat, nullRun: nat)
    requires i <= |lists|
    reads MessagesOf(lists)
  {
    forall j | 0 <= j < i :: AllMeasured(lists[j], nullRun)
  }

  method MeasureNext(p: Protocol, i: nat)
    requires Separate(p.lists) && i < |p.lists| && MeasuredUpTo(p.lists, i, p.nullRunLength)
    modifies p`nullRunLength, MessagesOf(p.lists)
    ensures MeasuredUpTo(p.lists, i + 1, p.nullRunLength)
  {
    ghost var before := p.nullRunLength;
    p.EmitTypesForwardDeclarations(p.lists[i]);
    forall j | 0 <= j < i
      ensures AllMeasured(p.lists[j], p.nullRunLength)
    {
      assert AllMeasured(p.lists[j], before);
    }
  }

  ghost predicate PlacedUpTo(lists: seq<seq<Message>>, i: nat, table: seq<Option<string>>, nullRun: nat)
    requires i <= |lists|
    reads MessagesOf(lists)
  {
    forall j | 0 <= j < i :: AllPlaced(lists[j], table, nullRun)
  }

  ghost predicate MeasuredFrom(lists: seq<seq<Message>>, i: nat, nullRun: nat)
    requires i <= |lists|
    reads MessagesOf(lists)
  {
    forall j | i <= j < |lists| :: AllMeasured(lists[j], nullRun)
  }

  lemma NotIn(lists: seq<seq<Message>>, i: nat, j: nat, k: nat)
    requires Separate(lists) && i < |lists| && j < |lists| && i != j && k < |lists[j]|
    ensures lists[j][k] !in lists[i]
  {
  }

  method PlaceList(p: Protocol, i: nat, table: seq<Option<string>>) returns (table': seq<Option<string>>)
    requires Separate(p.lists) && i < |p.lists|
    requires Nulls(p.nullRunLength) <= table && |table| == p.nullRunLength + p.typeIndex
    requires MeasuredFrom(p.lists, i, p.nullRunLength) && PlacedUpTo(p.lists, i, table, p.nullRunLength)
    modifies p`typeIndex, p.lists[i]
    ensures table <= table' && |table'| == p.nullRunLength + p.typeIndex
    ensures MeasuredFrom(p.lists, i + 1, p.nullRunLength) && PlacedUpTo(p.lists, i + 1, table', p.nullRunLength)
  {
    assert AllMeasured(p.lists[i], p.nullRunLength);
    table' := p.EmitTypes(p.lists[i], table);
    forall j, k | 0 <= j < i && 0 <= k < |p.lists[j]|
      ensures Placed(p.lists[j][k], table', p.nullRunLength)
    {
      var m := p.lists[j][k];
      NotIn(p.lists, i, j, k);
      assert old(AllPlaced(p.lists[j], table, p.nullRunLength) && Placed(m, table, p.nullRunLength));
      RowStays(m.args, m.typeIndex, table, table');
    }
    forall j, k | i < j < |p.lists| && 0 <= k < |p.lists[j]|
      ensures Measured(p.lists[j][k], p.nullRunLength)
    {
      var m := p.lists[j][k];
      NotIn(p.lists, i, j, k);
      assert old(AllMeasured(p.lists[j], p.nullRunLength) && Measured(m, p.nullRunLength));
    }
  }

  /** The table: the run of nulls, then the rows of all messages that have interfaces. */
  method PlaceAll(p: Protocol) returns (table: seq<Option<string>>)
    requires Separate(p.lists) && p.typeIndex == 0 && MeasuredFrom(p.lists, 0, p.nullRunLength)
    modifies p`typeIndex, MessagesOf(p.lists)
    ensures PlacedUpTo(p.lists, |p.lists|, table, p.nullRunLength)
  {
    table := Nulls(p.nullRunLength);
    for i := 0 to |p.lists|
      invariant Nulls(p.nullRunLength) <= table && |table| == p.nullRunLength + p.typeIndex
      invariant MeasuredFrom(p.lists, i, p.nullRunLength) && PlacedUpTo(p.lists, i, table, p.nullRunLength)
    {
      table := PlaceList(p, i, table);
    }
  }

  /** The entries of a list of messages: each is read back as it was given, and those
      without interfaces share the run of nulls. */
  ghost predicate AllFaithful(ms: seq<Message>, entries: seq<Entry>, table: seq<Option<string>>, nullRun: nat) {
    && |entries| == |ms|
    && forall k | 0 <= k < |ms| ::
         Faithful(ms[k], entries[k], table)
         && if AllNull(Slots(ms[k].args)) then entries[k].index == 0 else entries[k].index >= nullRun
  }

  method EmitList(ms: seq<Message>, ghost table: seq<Option<string>>, ghost nullRun: nat) returns (entries: seq<Entry>)
    requires AllPlaced(ms, table, nullRun)
    ensures AllFaithful(ms, entries, table, nullRun)
  {
    assert forall k | 0 <= k < |ms| :: Placed(ms[k], table, nullRun);
    entries := EmitMessages(ms, table);
  }

  method EmitLists(lists: seq<seq<Message>>, ghost table: seq<Option<string>>, ghost nullRun: nat)
    returns (entries: seq<seq<Entry>>)
    requires PlacedUpTo(lists, |lists|, table, nullRun)
    ensures |entries| == |lists|
    ensures forall i | 0 <= i < |lists| :: AllFaithful(lists[i], entries[i], table, nullRun)
  {
    entries := [];
    for i := 0 to |lists|
      invariant |entries| == i && forall j | 0 <= j < i :: AllFaithful(lists[j], entries[j], table, nullRun)
    {
      assert AllPlaced(lists[i], table, nullRun);
      var es := EmitList(lists[i], table, nullRun);
      entries := entries + [es];
    }
  }

  /** The code for a protocol: the library reads every message back as it was given. */
  method EmitCode(p: Protocol) returns (table: seq<Option<string>>, entries: seq<seq<Entry>>)
    requires Separate(p.lists) && p.typeIndex == 0
    modifies p`typeIndex, p`nullRunLength, MessagesOf(p.lists)
    ensures |entries| == |p.lists|
    ensures forall i | 0 <= i < |p.lists| :: AllFaithful(p.lists[i], entries[i], table, p.nullRunLength)
  {
    MeasureAll(p);
    table := PlaceAll(p);
    entries := EmitLists(p.lists, table, p.nullRunLength);
  }
}
