/** The id protocol reads an event word by word and keeps only what concerns ids and fds.
    Here it is shown that the demarshaller, which works on the bytes, makes the same of it. */
module EventDecoding {
  import opened Wrappers
  import opened Words
  import opened ObjectMap
  import opened Signatures
  import opened Interfaces
  import Closures
  import Connections
  import IdProtocol

  type Decoding = Closures.Decoding<IdProtocol.ClientEntry>

  /** An argument of a signature is of the kind of this parameter. */
  predicate Describes(arg: Arg, param: Param) {
    match param
    case WordParam => arg.kind.IntArg? || arg.kind.UintArg? || arg.kind.FixedArg?
    case BlockParam(text, nullable) => if text then arg == Arg(StringArg, nullable) else arg.kind.ArrayArg?
    case FdParam => arg.kind.FdArg?
    case ObjectParam(nullable, _) => arg == Arg(ObjectArg, nullable)
    case NewParam(_) => arg.kind.NewIdArg?
  }

  predicate AllDescribe(args: seq<Arg>, params: seq<Param>) {
    |args| == |params| && forall i :: 0 <= i < |args| ==> Describes(args[i], params[i])
  }

  /** The objects that decoded values name. */
  function Named(types: Types, params: seq<Param>, values: seq<Closures.Value>): (p: Payload)
    requires |values| == |params|
    decreases |params|
  {
    if params == [] then Payload([], [])
    else
      var p := Named(types, params[1..], values[1..]);
      match params[0]
      case ObjectParam(_, wanted) =>
        if values[0].Id? then p.(args := [ObjectRef(values[0].id, wanted)] + p.args) else p
      case NewParam(iface) =>
        if values[0].Id? then p.(created := [NewObject(values[0].id, types(iface))] + p.created) else p
      case _ => p
  }

  lemma WordBytesRead(b: seq<Byte>)
    requires |b| == 4
    ensures WordBytes(ReadWord(b)) == b
  {
    var b0: int, b1: int, b2: int, b3: int := b[0], b[1], b[2], b[3];
    var w := b0 + 0x100 * b1 + 0x1_0000 * b2 + 0x100_0000 * b3;
    assert w / 0x100 == b1 + 0x100 * b2 + 0x1_0000 * b3;
    assert w / 0x1_0000 == b2 + 0x100 * b3;
    assert w / 0x100_0000 == b3;
  }

  /** Byte k of the body is in word k / 4. */
  lemma ByteOfWord(b: seq<Byte>, k: nat)
    requires |b| % 4 == 0 && k < |b|
    ensures k / 4 < |ReadWords(b)| && WordBytes(ReadWords(b)[k / 4])[k % 4] == b[k]
  {
    var i := k / 4;
    WordBytesRead(b[4 * i..4 * i + 4]);
    assert b[4 * i..4 * i + 4][k % 4] == b[k];
  }

  /** The first word of the body, and the words after the first n. */
  lemma FirstWord(b: seq<Byte>, n: nat)
    requires |b| % 4 == 0 && 4 * n <= |b|
    ensures |ReadWords(b)| == |b| / 4 && ReadWords(b[4 * n..]) == ReadWords(b)[n..] && |b[4 * n..]| % 4 == 0
    ensures b != [] ==> |b| >= 4 && ReadWords(b)[0] == ReadWord(b[..4])
  {
    ReadWordsDrop(b, n);
  }

  /** The last of w bytes that follow the first word of the body. */
  lemma LastByte(b: seq<Byte>, w: nat)
    requires |b| % 4 == 0 && w > 0 && 4 + w <= |b|
    ensures 1 + (w - 1) / 4 < |ReadWords(b)|
    ensures b[4..][w - 1] == WordBytes(ReadWords(b)[1 + (w - 1) / 4])[(w - 1) % 4]
  {
    ByteOfWord(b, 4 + w - 1);
    assert (4 + w - 1) / 4 == 1 + (w - 1) / 4 && (4 + w - 1) % 4 == (w - 1) % 4;
  }

  /** Whether w bytes in whole words follow the first word, and what follows them. */
  ghost predicate Room(b: seq<Byte>, w: nat)
    requires |b| >= 4
  {
    var n := (w + 3) / 4;
    && n == Closures.RoundUp(w) && (|b[4..]| / 4 < n <==> n > |ReadWords(b)| - 1)
    && (n <= |ReadWords(b)| - 1 ==> 4 + w <= |b| && 4 * (1 + n) <= |b| && b[4..][4 * n..] == b[4 * (1 + n)..])
  }

  lemma BlockRoom(b: seq<Byte>, w: nat)
    requires |b| % 4 == 0 && b != []
    ensures |b| >= 4 && Room(b, w)
  {
    assert |b[4..]| / 4 == |b| / 4 - 1;
  }

  /** A string or an array is read in the same words. */
  lemma BlockDecoded(d: Decoding, arg: Arg, text: bool, nullable: bool)
    requires |d.rest| % 4 == 0 && d.rest != [] && d.error.None? && Describes(arg, BlockParam(text, nullable))
    ensures BlockReadAs(d, Closures.DecodeOne(d, arg), BlockWords(text, nullable, ReadWords(d.rest)))
  {
    FirstWord(d.rest, 0);
    var w: nat := ReadWords(d.rest)[0];
    BlockRoom(d.rest, w);
    if text {
      if w > 0 && (w + 3) / 4 <= |ReadWords(d.rest)| - 1 {
        LastByte(d.rest, w);
      }
      TextDecoded(d, arg, w);
    } else {
      ArrayDecoded(d, arg, nullable, w);
    }
  }

  ghost predicate BlockReadAs(d: Decoding, r: Decoding, n: Option<nat>) {
    && (r.error.None? <==> n.Some?)
    && (n.Some? ==> |r.values| == |d.values| + 1 && 4 * n.value <= |d.rest|
                    && r == d.(values := d.values + [r.values[|d.values|]], rest := d.rest[4 * n.value..]))
  }

  lemma TextDecoded(d: Decoding, arg: Arg, w: nat)
    requires |d.rest| % 4 == 0 && |d.rest| >= 4 && d.error.None? && arg.kind.StringArg?
    requires |ReadWords(d.rest)| == |d.rest| / 4 && w == ReadWords(d.rest)[0] == ReadWord(d.rest[..4])
    requires Room(d.rest, w)
    requires var words := ReadWords(d.rest);
             w > 0 && (w + 3) / 4 <= |words| - 1 ==>
               1 + (w - 1) / 4 < |words| && d.rest[4..][w - 1] == WordBytes(words[1 + (w - 1) / 4])[(w - 1) % 4]
    ensures BlockReadAs(d, Closures.DecodeOne(d, arg), BlockWords(true, arg.nullable, ReadWords(d.rest)))
  {
    if w == 0 {
      assert Closures.DecodeOne(d, arg).error.None? <==> arg.nullable;
    } else {
      assert BlockWords(true, arg.nullable, ReadWords(d.rest)).None? ==> Closures.DecodeOne(d, arg).error.Some?;
    }
  }

  lemma ArrayDecoded(d: Decoding, arg: Arg, nullable: bool, w: nat)
    requires |d.rest| % 4 == 0 && |d.rest| >= 4 && d.error.None? && arg.kind.ArrayArg?
    requires |ReadWords(d.rest)| == |d.rest| / 4 && w == ReadWords(d.rest)[0] == ReadWord(d.rest[..4])
    requires Room(d.rest, w)
    ensures BlockReadAs(d, Closures.DecodeOne(d, arg), BlockWords(false, nullable, ReadWords(d.rest)))
  {
  }

  /** What decoding by these parameters gives. */
  ghost predicate ReadAs(d: Decoding, r: Decoding, types: Types, params: seq<Param>) {
    var p, n := ReadParams(types, params, ReadWords(d.rest)), CountFds(params);
    if p.None? || n > |d.fds| then r.error.Some?
    else
      match IdProtocol.ReserveAll(d.objects, p.value.created)
      case Err(_) => r.error.Some?
      case Ok(m) =>
        && r.error.None? && r.objects == m && r.fds == d.fds[n..] && |r.values| == |d.values| + |params|
        && r.values[..|d.values|] == d.values && Named(types, params, r.values[|d.values|..]) == p.value
  }

  /** One argument is read, then the others. */
  ghost predicate FirstRead(d: Decoding, d1: Decoding, v: Closures.Value, n: nat) {
    && d1.error.None? && d1.values == d.values + [v] && 4 * n <= |d.rest| && d1.rest == d.rest[4 * n..]
  }

  lemma LaterValues(d: Decoding, d1: Decoding, v: Closures.Value, r: Decoding, count: nat)
    requires d1.values == d.values + [v] && |r.values| == |d1.values| + count && r.values[..|d1.values|] == d1.values
    ensures r.values[..|d.values|] == d.values && r.values[|d.values|..] == [v] + r.values[|d1.values|..]
  {
    assert r.values[..|d1.values|][..|d.values|] == r.values[..|d.values|];
    assert r.values[|d.values|] == r.values[..|d1.values|][|d.values|];
  }

  /** An argument that names no object. */
  lemma PlainRead(d: Decoding, d1: Decoding, v: Closures.Value, n: nat, r: Decoding, types: Types, params: seq<Param>)
    requires params != [] && !params[0].ObjectParam? && !params[0].NewParam? && !params[0].FdParam?
    requires |d.rest| % 4 == 0 && FirstRead(d, d1, v, n) && d1.objects == d.objects && d1.fds == d.fds
    requires d.rest != [] && ReadParams(types, params, ReadWords(d.rest))
                             == ReadParams(types, params[1..], ReadWords(d1.rest))
    requires ReadAs(d1, r, types, params[1..])
    ensures ReadAs(d, r, types, params)
  {
    if r.error.None? {
      LaterValues(d, d1, v, r, |params| - 1);
    }
  }

  lemma FdRead(d: Decoding, d1: Decoding, v: Closures.Value, r: Decoding, types: Types, params: seq<Param>)
    requires params != [] && params[0].FdParam? && d.fds != []
    requires |d.rest| % 4 == 0 && FirstRead(d, d1, v, 0) && d1.objects == d.objects && d1.fds == d.fds[1..]
    requires ReadAs(d1, r, types, params[1..])
    ensures ReadAs(d, r, types, params)
  {
    assert d1.rest == d.rest;
    if r.error.None? {
      LaterValues(d, d1, v, r, |params| - 1);
    }
  }

  lemma ObjectRead(d: Decoding, d1: Decoding, v: Closures.Value, r: Decoding, types: Types, params: seq<Param>)
    requires params != [] && params[0].ObjectParam? && d.rest != [] && |d.rest| % 4 == 0
    requires v.Id? && v.id == ReadWords(d.rest)[0] && (v.id == 0 ==> params[0].nullable)
    requires FirstRead(d, d1, v, 1) && d1.objects == d.objects && d1.fds == d.fds
    requires ReadAs(d1, r, types, params[1..])
    ensures ReadAs(d, r, types, params)
  {
    FirstWord(d.rest, 1);
    if r.error.None? {
      LaterValues(d, d1, v, r, |params| - 1);
    }
  }

  lemma NewRead(d: Decoding, d1: Decoding, v: Closures.Value, r: Decoding, types: Types, params: seq<Param>)
    requires params != [] && params[0].NewParam? && d.rest != [] && |d.rest| % 4 == 0
    requires v.Id? && v.id == ReadWords(d.rest)[0] != 0 && ReserveNew(d.objects, v.id) == Ok(d1.objects)
    requires FirstRead(d, d1, v, 1) && d1.fds == d.fds
    requires ReadAs(d1, r, types, params[1..])
    ensures ReadAs(d, r, types, params)
  {
    FirstWord(d.rest, 1);
    var p := ReadParams(types, params[1..], ReadWords(d1.rest));
    if p.Some? {
      var o := NewObject(v.id, types(params[0].iface));
      assert ([o] + p.value.created)[1..] == p.value.created;
    }
    if r.error.None? {
      LaterValues(d, d1, v, r, |params| - 1);
    }
  }

  lemma DescribeRest(args: seq<Arg>, params: seq<Param>)
    requires AllDescribe(args, params) && args != []
    ensures Describes(args[0], params[0]) && AllDescribe(args[1..], params[1..])
  {
  }

  /** Once an argument is in error nothing more is read. */
  lemma DecodingStops(d: Decoding, args: seq<Arg>)
    requires args != [] && d.error.None? && Closures.DecodeOne(d, args[0]).error.Some?
    ensures Closures.DecodeAll(d, args).error.Some?
  {
  }

  /** Decoding the bytes of a body by a signature fails exactly when reading its words by the
      parameters fails, an fd lacks or a new id cannot be reserved; and otherwise it finds
      the same objects, takes the same fds and reserves the same ids. */
  lemma {:induction false} DecodedAsRead(d: Decoding, args: seq<Arg>, types: Types, params: seq<Param>)
    requires d.error.None? && |d.rest| % 4 == 0 && AllDescribe(args, params)
    ensures ReadAs(d, Closures.DecodeAll(d, args), types, params)
    decreases |args|, 1
  {
    if args != [] {
      DescribeRest(args, params);
      if Closures.DecodeOne(d, args[0]).error.Some? {
        DecodingStops(d, args);
      }
      match params[0] {
        case FdParam => DecodedFd(d, args, types, params);
        case WordParam => DecodedWord(d, args, types, params);
        case BlockParam(_, _) => DecodedBlock(d, args, types, params);
        case ObjectParam(_, _) => DecodedObject(d, args, types, params);
        case NewParam(_) => DecodedNew(d, args, types, params);
      }
    } else {
      assert d.fds[0..] == d.fds;
    }
  }

  lemma {:induction false} DecodedFd(d: Decoding, args: seq<Arg>, types: Types, params: seq<Param>)
    requires d.error.None? && |d.rest| % 4 == 0 && AllDescribe(args, params) && args != [] && params[0].FdParam?
    ensures ReadAs(d, Closures.DecodeAll(d, args), types, params)
    decreases |args|, 0
  {
    DescribeRest(args, params);
    if d.fds != [] {
      var d1 := Closures.DecodeOne(d, args[0]);
      DecodedAsRead(d1, args[1..], types, params[1..]);
      FdRead(d, d1, Closures.Handle(d.fds[0]), Closures.DecodeAll(d, args), types, params);
    }
  }

  lemma {:induction false} DecodedWord(d: Decoding, args: seq<Arg>, types: Types, params: seq<Param>)
    requires d.error.None? && |d.rest| % 4 == 0 && AllDescribe(args, params) && args != [] && params[0].WordParam?
    ensures ReadAs(d, Closures.DecodeAll(d, args), types, params)
    decreases |args|, 0
  {
    DescribeRest(args, params);
    if d.rest != [] {
      FirstWord(d.rest, 1);
      var d1 := Closures.DecodeOne(d, args[0]);
      DecodedAsRead(d1, args[1..], types, params[1..]);
      PlainRead(d, d1, Closures.Number(ReadWord(d.rest[..4])), 1, Closures.DecodeAll(d, args), types, params);
    }
  }

  lemma {:induction false} DecodedBlock(d: Decoding, args: seq<Arg>, types: Types, params: seq<Param>)
    requires d.error.None? && |d.rest| % 4 == 0 && AllDescribe(args, params) && args != [] && params[0].BlockParam?
    ensures ReadAs(d, Closures.DecodeAll(d, args), types, params)
    decreases |args|, 0
  {
    DescribeRest(args, params);
    if d.rest != [] {
      FirstWord(d.rest, 0);
      BlockDecoded(d, args[0], params[0].text, params[0].nullable);
      var n := BlockWords(params[0].text, params[0].nullable, ReadWords(d.rest));
      if n.Some? {
        var d1 := Closures.DecodeOne(d, args[0]);
        FirstWord(d.rest, n.value);
        DecodedAsRead(d1, args[1..], types, params[1..]);
        PlainRead(d, d1, d1.values[|d.values|], n.value, Closures.DecodeAll(d, args), types, params);
      }
    }
  }

  lemma {:induction false} DecodedObject(d: Decoding, args: seq<Arg>, types: Types, params: seq<Param>)
    requires d.error.None? && |d.rest| % 4 == 0 && AllDescribe(args, params) && args != [] && params[0].ObjectParam?
    ensures ReadAs(d, Closures.DecodeAll(d, args), types, params)
    decreases |args|, 0
  {
    DescribeRest(args, params);
    if d.rest != [] {
      FirstWord(d.rest, 1);
      var d1 := Closures.DecodeOne(d, args[0]);
      if d1.error.None? {
        DecodedAsRead(d1, args[1..], types, params[1..]);
        ObjectRead(d, d1, Closures.Id(ReadWord(d.rest[..4])), Closures.DecodeAll(d, args), types, params);
      }
    }
  }

  lemma {:induction false} DecodedNew(d: Decoding, args: seq<Arg>, types: Types, params: seq<Param>)
    requires d.error.None? && |d.rest| % 4 == 0 && AllDescribe(args, params) && args != [] && params[0].NewParam?
    ensures ReadAs(d, Closures.DecodeAll(d, args), types, params)
    decreases |args|, 0
  {
    DescribeRest(args, params);
    if d.rest != [] {
      FirstWord(d.rest, 1);
      var d1 := Closures.DecodeOne(d, args[0]);
      if d1.error.None? {
        DecodedAsRead(d1, args[1..], types, params[1..]);
        NewRead(d, d1, Closures.Id(ReadWord(d.rest[..4])), Closures.DecodeAll(d, args), types, params);
      }
    }
  }

  /** So it is for a whole message; those with more than 20 arguments are refused by both. */
  lemma MessageDecodedAsRead(message: seq<Byte>, signature: string, types: Types, params: seq<Param>,
                             fds: seq<Connections.Fd>, m: ObjectMap<IdProtocol.ClientEntry>)
    requires |message| >= 8 && AllDescribe(Arguments(signature), params)
    ensures Closures.Refused(message, signature) <==> |params| > MAX_ARGS
    ensures ReadAs(Closures.Decoding([], Closures.Body(message), fds, m, None),
                   Closures.Decode(message, Arguments(signature), fds, m), types, params)
  {
    assert |Closures.Body(message)| % 4 == 0;
    DecodedAsRead(Closures.Decoding([], Closures.Body(message), fds, m, None), Arguments(signature), types, params);
  }
}
