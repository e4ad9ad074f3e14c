/** What the scanner prints for the messages of a protocol: a signature for each, and one
    table of interfaces that all of them share.  The runtime reads both back; `Signatures`
    models the reader. */
module Scanner {
  import opened Wrappers
  import opened Signatures

  /** An argument as the protocol file declares it. */
  datatype Decl = Decl(kind: Kind, nullable: bool, interfaceName: Option<string>)

  /** What the parser lets pass: interface names only on objects and new ids, and allow-null
      only on the nullable types. */
  predicate Accepted(d: Decl) {
    && (d.interfaceName.Some? ==> d.kind == ObjectArg || d.kind == NewIdArg)
    && (d.nullable ==> IsNullableType(d))
  }

  predicate IsNullableType(d: Decl) {
    d.kind == StringArg || d.kind == ObjectArg
  }

  class Message {
    const since: nat
    const args: seq<Decl>
    var typeIndex: nat
    var allNull: bool

    constructor (since: nat, args: seq<Decl>)
      ensures this.since == since && this.args == args
    {
      this.since, this.args, typeIndex, allNull := since, args, 0, false;
    }
  }

  // ---------------------------------------------------------------- signatures

  function Letter(k: Kind): (c: char)
    ensures KindOf(c) == Some(k) && !IsDigit(c)
  {
    match k
    case IntArg => 'i'
    case UintArg => 'u'
    case FixedArg => 'f'
    case StringArg => 's'
    case ObjectArg => 'o'
    case NewIdArg => 'n'
    case ArrayArg => 'a'
    case FdArg => 'h'
  }

  predicate Untyped(d: Decl) {
    d.kind == NewIdArg && d.interfaceName.None?
  }

  /** What is printed for one argument; a new id without an interface is preceded by the
      interface's name and version. */
  function Printed(d: Decl): string {
    (if IsNullableType(d) && d.nullable then "?" else "") + (if Untyped(d) then "su" else "") + [Letter(d.kind)]
  }

  function AllPrinted(args: seq<Decl>): (s: string) {
    if args == [] then "" else AllPrinted(args[..|args| - 1]) + Printed(args[|args| - 1])
  }

  function Digit(n: nat): (c: char)
    requires n < 10
    ensures IsDigit(c) && c as int - '0' as int == n
  {
    "0123456789"[n]
  }

  function Decimal(n: nat): (s: string)
    ensures s != "" && forall i :: 0 <= i < |s| ==> IsDigit(s[i])
  {
    (if n < 10 then "" else Decimal(n / 10)) + [Digit(n % 10)]
  }

  /** emit_messages, for one message. */
  method PrintSignature(m: Message) returns (s: string)
    ensures s == (if m.since > 1 then Decimal(m.since) else "") + AllPrinted(m.args)
  {
    s := "";
    if m.since > 1 {
      s := Decimal(m.since);
    }
    ghost var version := s;
    assert version + AllPrinted(m.args[..0]) == version;
    for i := 0 to |m.args|
      invariant s == version + AllPrinted(m.args[..i])
    {
      var a := m.args[i];
      assert m.args[..i + 1][..i] == m.args[..i];
      ghost var before := s;
      if IsNullableType(a) && a.nullable {
        s := s + "?";
      }
      if a.kind == NewIdArg && a.interfaceName == None {
        s := s + "su";
      }
      s := s + [Letter(a.kind)];
      assert s == before + Printed(a);
    }
    assert m.args[..|m.args|] == m.args;
  }

  /** The arguments of a message as the runtime sees them. */
  function Seen(d: Decl): (args: seq<Arg>) {
    if Untyped(d) then [Arg(StringArg, false), Arg(UintArg, false), Arg(NewIdArg, false)]
    else [Arg(d.kind, d.nullable)]
  }

  function AllSeen(args: seq<Decl>): (r: seq<Arg>) {
    if args == [] then [] else AllSeen(args[..|args| - 1]) + Seen(args[|args| - 1])
  }

  /** The nullability that is pending at the end of a signature's part. */
  predicate Pending(s: string, nullable: bool)
    decreases |s|
  {
    if s == "" then nullable
    else if KindOf(s[0]).Some? then Pending(s[1..], false)
    else Pending(s[1..], nullable || s[0] == '?')
  }

  lemma {:induction false} ArgumentsParts(a: string, b: string, nullable: bool)
    ensures Arguments(a + b, nullable) == Arguments(a, nullable) + Arguments(b, Pending(a, nullable))
    ensures Pending(a + b, nullable) == Pending(b, Pending(a, nullable))
    decreases |a|
  {
    if a == "" {
      assert a + b == b;
    } else {
      assert (a + b)[1..] == a[1..] + b;
      ArgumentsParts(a[1..], b, if KindOf(a[0]).Some? then false else nullable || a[0] == '?');
    }
  }

  lemma OneCharacter(c: char, nullable: bool)
    ensures KindOf(c).Some? ==> Arguments([c], nullable) == [Arg(KindOf(c).value, nullable)] && !Pending([c], nullable)
    ensures KindOf(c).None? ==> Arguments([c], nullable) == [] && Pending([c], nullable) == (nullable || c == '?')
  {
    assert [c][1..] == "";
  }

  lemma PrintedIsSeen(d: Decl)
    requires Accepted(d)
    ensures Arguments(Printed(d)) == Seen(d) && !Pending(Printed(d), false)
  {
    OneCharacter('?', false);
    OneCharacter('s', false);
    OneCharacter('u', false);
    OneCharacter(Letter(d.kind), d.nullable);
    ArgumentsParts("s", "u", false);
    assert "s" + "u" == "su";
    if d.nullable {
      assert Printed(d) == "?" + [Letter(d.kind)];
      ArgumentsParts("?", [Letter(d.kind)], false);
    } else if Untyped(d) {
      assert Printed(d) == "su" + [Letter(d.kind)];
      ArgumentsParts("su", [Letter(d.kind)], false);
    } else {
      assert Printed(d) == [Letter(d.kind)];
    }
  }

  lemma {:induction false} AllPrintedIsSeen(args: seq<Decl>)
    requires forall i :: 0 <= i < |args| ==> Accepted(args[i])
    ensures Arguments(AllPrinted(args)) == AllSeen(args) && !Pending(AllPrinted(args), false)
  {
    if args != [] {
      var front, last := args[..|args| - 1], args[|args| - 1];
      AllPrintedIsSeen(front);
      PrintedIsSeen(last);
      ArgumentsParts(AllPrinted(front), Printed(last), false);
    }
  }

  lemma {:induction false} DigitsHoldNoArguments(s: string)
    requires forall i :: 0 <= i < |s| ==> IsDigit(s[i])
    ensures Arguments(s) == [] && !Pending(s, false)
  {
    if s != "" {
      assert IsDigit(s[0]) && KindOf(s[0]).None?;
      DigitsHoldNoArguments(s[1..]);
    }
  }

  lemma {:induction false} NumberThenRest(s: string, t: string, v: nat)
    requires forall i :: 0 <= i < |s| ==> IsDigit(s[i])
    requires t == "" || !IsDigit(t[0])
    ensures LeadingNumber(s + t, v) == LeadingNumber(s, v)
    decreases |s|
  {
    if s == "" {
      assert s + t == t;
    } else {
      assert (s + t)[1..] == s[1..] + t;
      NumberThenRest(s[1..], t, 10 * v + (s[0] as int - '0' as int));
    }
  }

  lemma {:induction false} NumberThenDigit(s: string, c: char, v: nat)
    requires IsDigit(c) && forall i :: 0 <= i < |s| ==> IsDigit(s[i])
    ensures LeadingNumber(s + [c], v) == 10 * LeadingNumber(s, v) + (c as int - '0' as int)
    decreases |s|
  {
    if s == "" {
      assert (s + [c])[1..] == "";
    } else {
      assert (s + [c])[1..] == s[1..] + [c];
      NumberThenDigit(s[1..], c, 10 * v + (s[0] as int - '0' as int));
    }
  }

  lemma {:induction false} DecimalReadsBack(n: nat)
    ensures LeadingNumber(Decimal(n)) == n
  {
    var front := if n < 10 then "" else Decimal(n / 10);
    if n >= 10 {
      DecimalReadsBack(n / 10);
    }
    NumberThenDigit(front, Digit(n % 10), 0);
  }

  /** The runtime recovers from the printed signature the arguments of every message, with
      their nullability, and the version that introduced it. */
  lemma SignatureReadsBack(since: nat, args: seq<Decl>)
    requires forall i :: 0 <= i < |args| ==> Accepted(args[i])
    ensures var s := (if since > 1 then Decimal(since) else "") + AllPrinted(args);
            && Arguments(s) == AllSeen(args)
            && Atoi(s) == if since > 1 then since else 0
  {
    var version := if since > 1 then Decimal(since) else "";
    DigitsHoldNoArguments(version);
    AllPrintedIsSeen(args);
    ArgumentsParts(version, AllPrinted(args), false);
    PrintedStartsNoNumber(args);
    NumberThenRest(version, AllPrinted(args), 0);
    if since > 1 {
      DecimalReadsBack(since);
    }
  }

  lemma {:induction false} PrintedStartsNoNumber(args: seq<Decl>)
    ensures var s := AllPrinted(args); s == "" || !(IsDigit(s[0]) || IsSpace(s[0]) || IsSign(s[0]))
  {
    if args != [] {
      PrintedStartsNoNumber(args[..|args| - 1]);
    }
  }

  // ----------------------------------------------------------- the types table

  /** An entry of the table: the interface of an argument, or NULL. */
  function EntryOf(d: Decl): Option<string> {
    if d.kind == NewIdArg || d.kind == ObjectArg then d.interfaceName else None
  }

  predicate AllNull(args: seq<Decl>) {
    forall i :: 0 <= i < |args| ==> EntryOf(args[i]) == None
  }

  /** The entries that these messages have of their own, one message after the other. */
  function OwnEntries(messages: seq<Message>): (e: seq<Option<string>>) {
    if messages == [] then []
    else
      var n := |messages| - 1;
      OwnEntries(messages[..n]) + (if AllNull(messages[n].args) then [] else EntriesOf(messages[n].args))
  }

  function EntriesOf(args: seq<Decl>): (e: seq<Option<string>>)
    ensures |e| == |args|
  {
    seq(|args|, i requires 0 <= i < |args| => EntryOf(args[i]))
  }

  /** The leading run of NULLs. */
  function NullRun(n: nat): (e: seq<Option<string>>)
    ensures |e| == n && forall k :: 0 <= k < n ==> e[k] == None
  {
    seq(n, i => None)
  }

  /** Where message i finds its entries: in the leading run of NULLs, or behind the entries
      of the messages before it. */
  function OffsetOf(nullRun: nat, messages: seq<Message>, i: nat): (o: nat)
    requires i < |messages|
  {
    if AllNull(messages[i].args) then 0 else nullRun + |OwnEntries(messages[..i])|
  }

  class Protocol {
    var typeIndex: nat
    var nullRunLength: nat

    constructor ()
      ensures typeIndex == 0 && nullRunLength == 0
    {
      typeIndex, nullRunLength := 0, 0;
    }
  }

  /** The entries from a message's offset on are those of its arguments. */
  ghost predicate Right(m: Message, table: seq<Option<string>>)
    reads m
  {
    && m.typeIndex + |m.args| <= |table|
    && forall k :: 0 <= k < |m.args| ==> table[m.typeIndex + k] == EntryOf(m.args[k])
  }

  /** emit_types_forward_declarations, for its effect on the table: which messages share
      the leading run of NULLs, and how long it has to be. */
  method ForwardDeclarations(p: Protocol, messages: seq<Message>)
    modifies p`nullRunLength, set m | m in messages
    ensures forall m :: m in messages ==> m.allNull == AllNull(m.args)
    ensures p.nullRunLength >= old(p.nullRunLength)
    ensures forall m :: m in messages && m.allNull ==> |m.args| <= p.nullRunLength
    ensures p.nullRunLength == old(p.nullRunLength) ||
            exists m :: m in messages && m.allNull && |m.args| == p.nullRunLength
  {
    for i := 0 to |messages|
      modifies p`nullRunLength, set m | m in messages
      invariant forall j :: 0 <= j < i ==> messages[j].allNull == AllNull(messages[j].args)
      invariant p.nullRunLength >= old(p.nullRunLength)
      invariant forall j :: 0 <= j < i && messages[j].allNull ==> |messages[j].args| <= p.nullRunLength
      invariant p.nullRunLength == old(p.nullRunLength) ||
                exists m :: m in messages && AllNull(m.args) && |m.args| == p.nullRunLength
    {
      var m := messages[i];
      var length := 0;
      var allNull := true;
      for k := 0 to |m.args|
        modifies {}
        invariant length == k
        invariant allNull <==> forall j :: 0 <= j < k ==> EntryOf(m.args[j]) == None
      {
        length := length + 1;
        if (m.args[k].kind == NewIdArg || m.args[k].kind == ObjectArg) && m.args[k].interfaceName.Some? {
          allNull := false;
        }
      }
      m.allNull := allNull;
      if m.allNull && length > p.nullRunLength {
        p.nullRunLength := length;
      }
    }
  }

  /** emit_null_run. */
  method EmitNullRun(p: Protocol) returns (table: seq<Option<string>>)
    ensures table == NullRun(p.nullRunLength)
  {
    table := [];
    for i := 0 to p.nullRunLength
      invariant table == NullRun(i)
    {
      table := table + [None];
    }
  }

  /** The entries of one message are printed. */
  method EmitEntries(args: seq<Decl>, table: seq<Option<string>>) returns (table': seq<Option<string>>)
    ensures table' == table + EntriesOf(args)
  {
    table' := table;
    for k := 0 to |args|
      invariant table' == table + EntriesOf(args)[..k]
    {
      var entry: Option<string> := None;
      if args[k].kind == NewIdArg || args[k].kind == ObjectArg {
        entry := args[k].interfaceName;
      }
      assert EntriesOf(args)[..k + 1] == EntriesOf(args)[..k] + [entry];
      table' := table' + [entry];
    }
    assert EntriesOf(args)[..|args|] == EntriesOf(args);
  }

  /** emit_types: messages without an interface point at the leading run of NULLs, and each
      of the others gets entries of its own. */
  method EmitTypes(p: Protocol, messages: seq<Message>, table: seq<Option<string>>)
    returns (table': seq<Option<string>>)
    requires forall i, j :: 0 <= i < j < |messages| ==> messages[i] != messages[j]
    requires table == NullRun(p.nullRunLength) && p.typeIndex == 0
    requires forall m :: m in messages ==>
               m.allNull == AllNull(m.args) && (m.allNull ==> |m.args| <= p.nullRunLength)
    modifies p`typeIndex, set m | m in messages
    ensures table' == table + OwnEntries(messages)
    ensures forall i :: 0 <= i < |messages| ==> messages[i].typeIndex == OffsetOf(p.nullRunLength, messages, i)
    ensures forall m :: m in messages ==> Right(m, table') && m.allNull == old(m.allNull)
  {
    table' := table;
    for i := 0 to |messages|
      modifies p`typeIndex, set m | m in messages
      invariant table' == table + OwnEntries(messages[..i]) && p.typeIndex == |OwnEntries(messages[..i])|
      invariant forall m :: m in messages ==> m.allNull == old(m.allNull)
      invariant forall j :: 0 <= j < i ==> messages[j].typeIndex == OffsetOf(p.nullRunLength, messages, j)
    {
      OwnEntriesNext(messages, i, table);
      table' := EmitMessage(p, messages[i], table');
    }
    assert messages[..|messages|] == messages;
    AllRight(messages, table);
  }

  /** With these offsets every message finds its entries. */
  lemma AllRight(messages: seq<Message>, table: seq<Option<string>>)
    requires forall k :: 0 <= k < |table| ==> table[k] == None
    requires forall i :: 0 <= i < |messages| ==>
               && (AllNull(messages[i].args) ==> |messages[i].args| <= |table|)
               && messages[i].typeIndex == OffsetOf(|table|, messages, i)
    ensures forall m :: m in messages ==> Right(m, table + OwnEntries(messages))
  {
    forall i | 0 <= i < |messages| ensures Right(messages[i], table + OwnEntries(messages)) {
      if !AllNull(messages[i].args) {
        EntriesFrom(messages, i, table);
        OwnSliceRight(messages[i], table + OwnEntries(messages));
      }
    }
  }

  lemma OwnSliceRight(m: Message, table: seq<Option<string>>)
    requires FoundAt(table, m.typeIndex, EntriesOf(m.args))
    ensures Right(m, table)
  {
    forall k | 0 <= k < |m.args| ensures table[m.typeIndex + k] == EntryOf(m.args[k]) {
      assert table[m.typeIndex + k] == EntriesOf(m.args)[k];
    }
  }

  /** One message. */
  method EmitMessage(p: Protocol, m: Message, table: seq<Option<string>>) returns (table': seq<Option<string>>)
    requires m.allNull == AllNull(m.args)
    modifies p`typeIndex, m`typeIndex
    ensures m.typeIndex == if AllNull(m.args) then 0 else p.nullRunLength + old(p.typeIndex)
    ensures var more := if AllNull(m.args) then [] else EntriesOf(m.args);
            table' == table + more && p.typeIndex == old(p.typeIndex) + |more|
  {
    table' := table;
    if m.allNull {
      m.typeIndex := 0;
    } else {
      m.typeIndex := p.nullRunLength + p.typeIndex;
      p.typeIndex := p.typeIndex + |m.args|;
      table' := EmitEntries(m.args, table);
    }
  }

  lemma OwnEntriesNext(messages: seq<Message>, i: nat, table: seq<Option<string>>)
    requires i < |messages|
    ensures var more := if AllNull(messages[i].args) then [] else EntriesOf(messages[i].args);
            && OwnEntries(messages[..i + 1]) == OwnEntries(messages[..i]) + more
            && table + OwnEntries(messages[..i + 1]) == table + OwnEntries(messages[..i]) + more
  {
    assert messages[..i + 1][..i] == messages[..i];
  }

  /** These entries are in the table from this offset on. */
  predicate FoundAt(table: seq<Option<string>>, o: nat, e: seq<Option<string>>) {
    o + |e| <= |table| && forall k :: 0 <= k < |e| ==> table[o + k] == e[k]
  }

  /** Behind the entries of the messages before it a message finds its own. */
  lemma {:induction false} EntriesFrom(messages: seq<Message>, i: nat, table: seq<Option<string>>)
    requires i < |messages| && !AllNull(messages[i].args)
    ensures FoundAt(table + OwnEntries(messages), |table| + |OwnEntries(messages[..i])|, EntriesOf(messages[i].args))
    decreases |messages|
  {
    var n := |messages| - 1;
    var front := messages[..n];
    var b, last := OwnEntries(front), if AllNull(messages[n].args) then [] else EntriesOf(messages[n].args);
    assert OwnEntries(messages) == b + last;
    if i < n {
      assert front[i] == messages[i] && front[..i] == messages[..i];
      EntriesFrom(front, i, table);
      SliceStays(table, b, last, |table| + |OwnEntries(front[..i])|, EntriesOf(front[i].args));
    } else {
      SliceAtEnd(table, b, last);
    }
  }

  lemma SliceStays(a: seq<Option<string>>, b: seq<Option<string>>, c: seq<Option<string>>, o: nat,
                   e: seq<Option<string>>)
    requires FoundAt(a + b, o, e)
    ensures FoundAt(a + (b + c), o, e)
  {
    assert a + (b + c) == (a + b) + c;
    forall k | 0 <= k < |e| ensures ((a + b) + c)[o + k] == e[k] {
      assert (a + b)[o + k] == e[k];
    }
  }

  lemma SliceAtEnd(a: seq<Option<string>>, b: seq<Option<string>>, c: seq<Option<string>>)
    ensures FoundAt(a + (b + c), |a| + |b|, c)
  {
  }

  /** The table part of emit_code, over the requests and events of all interfaces: entry k
      from the offset of any message is the interface of its argument k, or NULL. */
  method EmitTable(messages: seq<Message>) returns (table: seq<Option<string>>, nullRun: nat)
    requires forall i, j :: 0 <= i < j < |messages| ==> messages[i] != messages[j]
    modifies set m | m in messages
    ensures forall m :: m in messages ==> Right(m, table)
    ensures table == NullRun(nullRun) + OwnEntries(messages)
    ensures forall i :: 0 <= i < |messages| ==> messages[i].typeIndex == OffsetOf(nullRun, messages, i)
    ensures nullRun == 0 || exists m :: m in messages && AllNull(m.args) && |m.args| == nullRun
    ensures forall m :: m in messages && AllNull(m.args) ==> |m.args| <= nullRun
  {
    var p := new Protocol();
    ForwardDeclarations(p, messages);
    nullRun := p.nullRunLength;
    table := EmitNullRun(p);
    table := EmitTypes(p, messages, table);
  }

  /** Entry k stands for argument k as the runtime counts arguments exactly when no new id
      is untyped: such an argument is three for the runtime, but has one entry. */
  lemma {:induction false} EntriesCountAlikeIff(args: seq<Decl>)
    ensures |AllSeen(args)| >= |args|
    ensures |AllSeen(args)| == |args| <==> forall i :: 0 <= i < |args| ==> !Untyped(args[i])
  {
    if args != [] {
      EntriesCountAlikeIff(args[..|args| - 1]);
      var front := args[..|args| - 1];
      assert forall i :: 0 <= i < |front| ==> front[i] == args[i];
    }
  }

  lemma {:induction false} ArgumentsAlike(args: seq<Decl>, k: nat)
    requires forall i :: 0 <= i < |args| ==> !Untyped(args[i])
    requires k < |args|
    ensures |AllSeen(args)| == |args| && AllSeen(args)[k] == Arg(args[k].kind, args[k].nullable)
  {
    var front := args[..|args| - 1];
    EntriesCountAlikeIff(args);
    EntriesCountAlikeIff(front);
    assert forall i :: 0 <= i < |front| ==> front[i] == args[i];
    if k < |front| {
      ArgumentsAlike(front, k);
    }
  }

  /** An argument after an untyped new id is looked up in the wrong entry: for the runtime
      the object of the first message is argument 3, but entry 3 from the message's offset
      is the interface of an argument of the second message. */
  method UntypedShiftsEntries() returns (m: Message, table: seq<Option<string>>)
    ensures Right(m, table) && m.args == [Decl(NewIdArg, false, None), Decl(ObjectArg, false, Some("seat"))]
    ensures |AllSeen(m.args)| == 4 && AllSeen(m.args)[3] == Arg(ObjectArg, false)
    ensures m.typeIndex + 3 < |table| && table[m.typeIndex + 3] == Some("surface")
  {
    m := new Message(1, [Decl(NewIdArg, false, None), Decl(ObjectArg, false, Some("seat"))]);
    var other := new Message(1, [Decl(ObjectArg, false, Some("pointer")), Decl(ObjectArg, false, Some("surface"))]);
    var nullRun;
    table, nullRun := EmitTable([m, other]);
    TwoMessages(m, other, table, nullRun);
  }

  lemma TwoMessages(m: Message, other: Message, table: seq<Option<string>>, nullRun: nat)
    requires m.args == [Decl(NewIdArg, false, None), Decl(ObjectArg, false, Some("seat"))]
    requires other.args == [Decl(ObjectArg, false, Some("pointer")), Decl(ObjectArg, false, Some("surface"))]
    requires table == NullRun(nullRun) + OwnEntries([m, other])
    ensures |AllSeen(m.args)| == 4 && AllSeen(m.args)[3] == Arg(ObjectArg, false)
    ensures var o := OffsetOf(nullRun, [m, other], 0);
            o + 3 < |table| && table[o + 3] == Some("surface")
  {
    assert m.args[..1] == [m.args[0]] && m.args[..1][..0] == [];
    assert AllSeen(m.args[..1]) == Seen(m.args[0]);
    assert AllSeen(m.args) == Seen(m.args[0]) + Seen(m.args[1]);
    var both := [m, other];
    assert both[..1] == [m] && [m][..0] == [] && both[..0] == [];
    assert EntryOf(m.args[1]) == Some("seat") && EntryOf(other.args[0]) == Some("pointer");
    assert OwnEntries([m]) == EntriesOf(m.args);
    assert OwnEntries(both) == EntriesOf(m.args) + EntriesOf(other.args);
  }
}
