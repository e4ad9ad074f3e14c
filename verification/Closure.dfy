/** Marshalling: arguments to bytes and back.

    `Serialize` and `Demarshal` are the two loops.  What they compute is stated by
    `Encodes`, which leaves the padding open, and by the function `Decode`; the round trip
    relates these two. */
module Closures {
  import opened Wrappers
  import opened ObjectMap
  import opened Words
  import opened RingBuffers
  import opened Connections
  import opened Signatures
  import opened SlotTable
  import opened Frames

  const TWO32: nat := 0x1_0000_0000

  /** An argument of a closure: a number; a string without its NUL, a pointer to an
      object of known id, or an array, each of which may be NULL; an id; or an fd. */
  datatype Value =
    | Number(w: Word)
    | Text(text: Option<seq<Byte>>)
    | Object(objectId: Option<Word>)
    | Id(id: Word)
    | Bytes(bytes: Option<seq<Byte>>)
    | Handle(fd: Fd)

  datatype Closure = Closure(sender: Word, opcode: Word, signature: string, values: seq<Value>)

  // --------------------------------------------------------------- what is sent

  /** Values of the kinds that a closure to be sent holds. */
  predicate HasKind(v: Value, k: Kind) {
    match k
    case IntArg | UintArg | FixedArg => v.Number?
    case StringArg => v.Text?
    case ObjectArg => v.Object?
    case NewIdArg => v.Id?
    case ArrayArg => v.Bytes?
    case FdArg => v.Handle?
  }

  predicate HaveKinds(vals: seq<Value>, args: seq<Arg>) {
    |vals| == |args| && forall i :: 0 <= i < |vals| ==> HasKind(vals[i], args[i].kind)
  }

  /** div_roundup by the size of a word. */
  function RoundUp(n: nat): (r: nat)
    ensures 4 * r - 4 < n <= 4 * r
  {
    (n + 3) / 4
  }

  /** The bytes that follow a value's first word.  Lengths are kept in 32 bits. */
  function Payload(v: Value): (b: seq<Byte>)
    ensures |b| < TWO32
  {
    match v
    case Text(Some(s)) => (s + [0])[..Wrap(|s| + 1)]
    case Bytes(Some(a)) => a[..Wrap(|a|)]
    case _ => []
  }

  function FirstWord(v: Value): Word {
    match v
    case Number(w) => w
    case Object(None) => 0
    case Object(Some(id)) => id
    case Id(id) => id
    case _ => |Payload(v)|
  }

  function WordCount(v: Value): (n: nat) {
    if v.Handle? then 0 else 1 + RoundUp(|Payload(v)|)
  }

  function TotalWords(vals: seq<Value>): (n: nat) {
    if vals == [] then 0 else TotalWords(vals[..|vals| - 1]) + WordCount(vals[|vals| - 1])
  }

  /** b holds the value v: its first word, its payload, and padding that may be anything. */
  ghost predicate EncodesOne(b: seq<Byte>, v: Value) {
    && |b| == 4 * WordCount(v)
    && (!v.Handle? ==>
          && b[..4] == WordBytes(FirstWord(v))
          && b[4..4 + |Payload(v)|] == Payload(v))
  }

  ghost predicate Encodes(b: seq<Byte>, vals: seq<Value>) {
    if vals == [] then b == []
    else
      var n := 4 * WordCount(vals[0]);
      n <= |b| && EncodesOne(b[..n], vals[0]) && Encodes(b[n..], vals[1..])
  }

  /** b is the message of a closure: the header and the values. */
  ghost predicate EncodesMessage(b: seq<Byte>, c: Closure) {
    && |b| >= 8
    && b[..4] == WordBytes(c.sender)
    && b[4..8] == WordBytes(Wrap(0x1_0000 * |b| + c.opcode % 0x1_0000))
    && Encodes(b[8..], c.values)
  }

  lemma {:induction false} EncodesAppend(a: seq<Byte>, vals: seq<Value>, b: seq<Byte>, v: Value)
    requires Encodes(a, vals) && EncodesOne(b, v)
    ensures Encodes(a + b, vals + [v])
  {
    if vals == [] {
      EncodesSingle(b, v);
      assert a + b == b && vals + [v] == [v];
    } else {
      var n := 4 * WordCount(vals[0]);
      EncodesAppend(a[n..], vals[1..], b, v);
      SplitAppend(a, b, n);
      SplitAppend(vals, [v], 1);
      assert (vals + [v])[0] == vals[0];
    }
  }

  lemma SplitAppend<T>(a: seq<T>, b: seq<T>, n: nat)
    requires n <= |a|
    ensures (a + b)[..n] == a[..n] && (a + b)[n..] == a[n..] + b
  {
  }

  lemma EncodesSingle(b: seq<Byte>, v: Value)
    requires EncodesOne(b, v)
    ensures Encodes(b, [v])
  {
    assert b[..|b|] == b && b[|b|..] == [] && [v][1..] == [];
  }

  lemma {:induction false} TotalGrows(vals: seq<Value>, i: nat)
    requires i <= |vals|
    ensures TotalWords(vals[..i]) <= TotalWords(vals)
    decreases |vals|
  {
    if i < |vals| {
      var front := vals[..|vals| - 1];
      assert front[..i] == vals[..i];
      TotalGrows(front, i);
    } else {
      assert vals[..i] == vals;
    }
  }

  lemma TotalNext(vals: seq<Value>, i: nat)
    requires i < |vals|
    ensures TotalWords(vals[..i + 1]) == TotalWords(vals[..i]) + WordCount(vals[i]) <= TotalWords(vals)
  {
    assert vals[..i + 1][..i] == vals[..i];
    TotalGrows(vals, i + 1);
  }

  lemma WrapAdd(a: int, b: int)
    ensures Wrap(Wrap(a) + b) == Wrap(a + b)
  {
  }

  /** The words one argument adds to the size. */
  method AddWords(size: Word, v: Value, kind: Kind) returns (size': Word)
    requires HasKind(v, kind)
    ensures size' == Wrap(size + WordCount(v))
  {
    size' := size;
    match kind {
    case FdArg =>
    case IntArg | UintArg | FixedArg | ObjectArg | NewIdArg =>
      size' := Wrap(size + 1);
    case StringArg =>
      if v.text.None? {
        size' := Wrap(size + 1);
      } else {
        var n := Wrap(|v.text.value| + 1);
        size' := Wrap(size + 1 + RoundUp(n));
      }
    case ArrayArg =>
      if v.bytes.None? {
        size' := Wrap(size + 1);
      } else {
        var n := Wrap(|v.bytes.value|);
        size' := Wrap(size + 1 + RoundUp(n));
      }
    }
  }

  /** One round of the loop of buffer_size_for_closure. */
  method AddArgument(c: Closure, i: nat, at: nat, size: Word) returns (size': Word, at': nat)
    requires HaveKinds(c.values, Arguments(c.signature)) && i < |c.values|
    requires at <= |c.signature| && Arguments(c.signature[at..]) == Arguments(c.signature)[i..]
    requires size == Wrap(TotalWords(c.values[..i]))
    ensures at' <= |c.signature| && Arguments(c.signature[at'..]) == Arguments(c.signature)[i + 1..]
    ensures size' == Wrap(TotalWords(c.values[..i + 1]))
  {
    var kind, nullable;
    kind, nullable, at' := NextArgument(c.signature, at);
    size' := AddWords(size, c.values[i], kind.value);
    WrapAdd(TotalWords(c.values[..i]), WordCount(c.values[i]));
    TotalNext(c.values, i);
  }

  /** buffer_size_for_closure: the number of words the message needs, in 32 bits. */
  method BufferSize(c: Closure) returns (size: Word)
    requires HaveKinds(c.values, Arguments(c.signature))
    ensures size == Wrap(TotalWords(c.values) + 2)
  {
    size := 0;
    var count := ArgCount(c.signature);
    var at: nat := 0;
    for i := 0 to count
      invariant at <= |c.signature| && Arguments(c.signature[at..]) == Arguments(c.signature)[i..]
      invariant size == Wrap(TotalWords(c.values[..i]))
    {
      size, at := AddArgument(c, i, at, size);
    }
    assert c.values[..count] == c.values;
    WrapAdd(TotalWords(c.values), 2);
    size := Wrap(size + 2);
  }

  /** Stores a word in a buffer. */
  method PutWord(buffer: array<Byte>, at: nat, w: Word)
    requires at + 4 <= buffer.Length
    modifies buffer
    ensures buffer[..] == old(buffer[..])[..at] + WordBytes(w) + old(buffer[..])[at + 4..]
  {
    var b := WordBytes(w);
    buffer[at], buffer[at + 1], buffer[at + 2], buffer[at + 3] := b[0], b[1], b[2], b[3];
  }

  /** memcpy into a buffer. */
  method PutBytes(buffer: array<Byte>, at: nat, src: seq<Byte>)
    requires at + |src| <= buffer.Length
    modifies buffer
    ensures buffer[..] == old(buffer[..])[..at] + src + old(buffer[..])[at + |src|..]
  {
    CopyIn(buffer, at, src);
  }

  /** What is stored for a value: a word, and bytes after it. */
  method Parts(v: Value, kind: Kind) returns (word: Word, src: seq<Byte>)
    requires HasKind(v, kind) && kind != FdArg
    ensures word == FirstWord(v) && src == Payload(v)
  {
    word, src := 0, [];
    match kind {
    case IntArg | UintArg | FixedArg =>
      word := v.w;
    case ObjectArg =>
      word := if v.objectId.Some? then v.objectId.value else 0;
    case NewIdArg =>
      word := v.id;
    case StringArg =>
      if v.text.Some? {
        word := Wrap(|v.text.value| + 1);
        src := (v.text.value + [0])[..word];
      }
    case ArrayArg =>
      if v.bytes.Some? {
        word := Wrap(|v.bytes.value|);
        src := v.bytes.value[..word];
      }
    }
  }

  /** Stores one value at word p of the buffer, unless it does not fit. */
  method PutValue(buffer: array<Byte>, p: nat, v: Value, kind: Kind) returns (p': nat, overflow: bool)
    requires 4 * p <= buffer.Length && buffer.Length % 4 == 0 && HasKind(v, kind)
    modifies buffer
    ensures overflow <==> 4 * (p + WordCount(v)) > buffer.Length
    ensures !overflow ==>
              && p' == p + WordCount(v)
              && buffer[..][..4 * p] == old(buffer[..])[..4 * p]
              && EncodesOne(buffer[..][4 * p..4 * p'], v)
  {
    if kind == FdArg {
      return p, false;
    }
    p', overflow := PutWords(buffer, p, v, kind);
  }

  /** Stores a value that takes up words. */
  method PutWords(buffer: array<Byte>, p: nat, v: Value, kind: Kind) returns (p': nat, overflow: bool)
    requires 4 * p <= buffer.Length && buffer.Length % 4 == 0 && HasKind(v, kind) && kind != FdArg
    modifies buffer
    ensures overflow <==> 4 * (p + WordCount(v)) > buffer.Length
    ensures !overflow ==>
              && p' == p + WordCount(v)
              && buffer[..][..4 * p] == old(buffer[..])[..4 * p]
              && EncodesOne(buffer[..][4 * p..4 * p'], v)
  {
    p', overflow := p, false;
    if 4 * (p + 1) > buffer.Length {
      overflow := true;
      return;
    }
    var word, src := Parts(v, kind);
    ghost var b0 := buffer[..];
    PutWord(buffer, 4 * p, word);
    p' := p + 1 + RoundUp(|src|);
    if 4 * p' > buffer.Length {
      overflow := true;
      return;
    }
    PutPayload(buffer, p, v, src, b0);
  }

  /** The bytes of a value follow its first word, which was stored over b0. */
  method PutPayload(buffer: array<Byte>, p: nat, v: Value, src: seq<Byte>, ghost b0: seq<Byte>)
    requires !v.Handle? && src == Payload(v) && |b0| == buffer.Length && 4 * (p + WordCount(v)) <= buffer.Length
    requires buffer[..] == b0[..4 * p] + WordBytes(FirstWord(v)) + b0[4 * p + 4..]
    modifies buffer
    ensures buffer[..][..4 * p] == b0[..4 * p]
    ensures EncodesOne(buffer[..][4 * p..4 * (p + WordCount(v))], v)
  {
    ghost var b1 := buffer[..];
    PutBytes(buffer, 4 * p + 4, src);
    ValueStored(b0, b1, buffer[..], 4 * p, v);
  }

  lemma ValueStored(b0: seq<Byte>, b1: seq<Byte>, b2: seq<Byte>, at: nat, v: Value)
    requires !v.Handle? && at + 4 * WordCount(v) <= |b0|
    requires b1 == b0[..at] + WordBytes(FirstWord(v)) + b0[at + 4..]
    requires b2 == b1[..at + 4] + Payload(v) + b1[at + 4 + |Payload(v)|..]
    ensures b2[..at] == b0[..at]
    ensures EncodesOne(b2[at..at + 4 * WordCount(v)], v)
  {
    var n, s, w := 4 * WordCount(v), Payload(v), WordBytes(FirstWord(v));
    assert b1[..at] == b0[..at] && b1[at..at + 4] == w;
    assert b2[..at + 4] == b1[..at + 4] && b2[at + 4..at + 4 + |s|] == s;
    assert b2[at..at + n][..4] == w;
    assert b2[at..at + n][4..4 + |s|] == s;
  }

  /** An unsigned 32-bit number read as a signed one. */
  function Signed(x: Word): int {
    if x < 0x8000_0000 then x else x - TWO32
  }

  /** The loop of serialize_closure. */
  method SerializeValues(c: Closure, buffer: array<Byte>) returns (p: nat, overflow: bool)
    requires HaveKinds(c.values, Arguments(c.signature)) && buffer.Length % 4 == 0 && buffer.Length >= 8
    modifies buffer
    ensures overflow <==> 4 * (TotalWords(c.values) + 2) > buffer.Length
    ensures !overflow ==> p == TotalWords(c.values) + 2 && Encodes(buffer[..][8..4 * p], c.values)
  {
    overflow := false;
    p := 2;
    var at: nat := 0;
    var count := ArgCount(c.signature);
    for i := 0 to count
      invariant at <= |c.signature| && Arguments(c.signature[at..]) == Arguments(c.signature)[i..]
      invariant p == TotalWords(c.values[..i]) + 2 && 4 * p <= buffer.Length
      invariant Encodes(buffer[..][8..4 * p], c.values[..i])
    {
      var kind, nullable;
      kind, nullable, at := NextArgument(c.signature, at);
      TotalNext(c.values, i);
      ghost var b0 := buffer[..];
      var p';
      p', overflow := PutValue(buffer, p, c.values[i], kind.value);
      if overflow {
        return;
      }
      ValuesExtended(b0, buffer[..], p, p', c.values, i);
      p := p';
    }
    assert c.values[..count] == c.values;
  }

  lemma ValuesExtended(b0: seq<Byte>, b1: seq<Byte>, p: nat, p': nat, vals: seq<Value>, i: nat)
    requires i < |vals| && |b0| == |b1| && 2 <= p <= p' && 4 * p' <= |b1|
    requires Encodes(b0[8..4 * p], vals[..i]) && b1[..4 * p] == b0[..4 * p]
    requires EncodesOne(b1[4 * p..4 * p'], vals[i])
    ensures Encodes(b1[8..4 * p'], vals[..i + 1])
  {
    EncodesAppend(b0[8..4 * p], vals[..i], b1[4 * p..4 * p'], vals[i]);
    assert b1[8..4 * p] == b1[..4 * p][8..] == b0[..4 * p][8..] == b0[8..4 * p];
    assert b1[8..4 * p'] == b1[8..4 * p] + b1[4 * p..4 * p'];
    assert vals[..i + 1] == vals[..i] + [vals[i]];
  }

  /** Stores the two words of the header in front of the values. */
  method PutHeader(c: Closure, buffer: array<Byte>, p: nat) returns (size: Word)
    requires 2 <= p && 4 * p <= buffer.Length && Encodes(buffer[..][8..4 * p], c.values)
    modifies buffer
    ensures size == Wrap(4 * p) && EncodesMessage(buffer[..][..4 * p], c)
  {
    ghost var b0 := buffer[..];
    size := Wrap(4 * p);
    PutWord(buffer, 0, c.sender);
    ghost var b1 := buffer[..];
    var header := Wrap(0x1_0000 * size + c.opcode % 0x1_0000);
    PutWord(buffer, 4, header);
    HeaderStored(b0, b1, buffer[..], 4 * p, c);
  }

  /** serialize_closure.  It overflows exactly when the values need more words than the
      buffer has; otherwise the buffer holds the message. */
  method Serialize(c: Closure, buffer: array<Byte>) returns (r: Result<int>)
    requires HaveKinds(c.values, Arguments(c.signature)) && buffer.Length % 4 == 0
    modifies buffer
    ensures r.Ok? <==> 4 * (TotalWords(c.values) + 2) <= buffer.Length
    ensures r.Err? ==> r == Err(ERANGE)
    ensures r.Ok? ==>
              var n := 4 * (TotalWords(c.values) + 2);
              r.value == Signed(Wrap(n)) && EncodesMessage(buffer[..][..n], c)
  {
    if buffer.Length < 8 {
      return Err(ERANGE);
    }
    var p, overflow := SerializeValues(c, buffer);
    if overflow {
      return Err(ERANGE);
    }
    var size := PutHeader(c, buffer, p);
    return Ok(Signed(size));
  }

  lemma HeaderStored(b0: seq<Byte>, b1: seq<Byte>, b2: seq<Byte>, n: nat, c: Closure)
    requires 8 <= n <= |b0| && Encodes(b0[8..n], c.values)
    requires b1 == b0[..0] + WordBytes(c.sender) + b0[4..]
    requires b2 == b1[..4] + WordBytes(Wrap(0x1_0000 * Wrap(n) + c.opcode % 0x1_0000)) + b1[8..]
    ensures EncodesMessage(b2[..n], c)
  {
    ShiftWraps(n, c.opcode % 0x1_0000);
    assert b1[..4] == WordBytes(c.sender) && b1[8..] == b0[8..];
    assert b2[..4] == b1[..4] && b2[8..] == b1[8..];
    assert b2[..n][4..8] == b2[4..8];
    assert b2[..n][8..] == b2[8..n] == b0[8..n];
  }

  lemma ShiftWraps(n: int, low: int)
    ensures Wrap(0x1_0000 * Wrap(n) + low) == Wrap(0x1_0000 * n + low)
  {
    var q := n / TWO32;
    assert n == TWO32 * q + Wrap(n);
    assert 0x1_0000 * n + low == (0x1_0000 * Wrap(n) + low) + TWO32 * (0x1_0000 * q);
    WrapShift(0x1_0000 * Wrap(n) + low, 0x1_0000 * q);
  }

  lemma WrapShift(x: int, k: int)
    ensures Wrap(x + TWO32 * k) == Wrap(x)
  {
  }

  lemma WrapFits(n: nat)
    ensures Wrap(n) <= n && (n < TWO32 <==> Wrap(n) == n)
  {
  }

  /** wl_closure_send up to the write: with the buffer size computed for it, a closure
      overflows exactly when its size in words does not fit 32 bits.  In particular no
      closure that a connection accepts overflows. */
  method Write(c: Closure) returns (r: Result<int>, bytes: seq<Byte>)
    requires HaveKinds(c.values, Arguments(c.signature))
    ensures var words := TotalWords(c.values) + 2;
            && (r.Err? <==> words >= TWO32)
            && (words <= SIZE / 4 ==> r == Ok(4 * words) && |bytes| == 4 * words && EncodesMessage(bytes, c))
  {
    var size := BufferSize(c);
    WrapFits(TotalWords(c.values) + 2);
    var buffer := new Byte[4 * size];
    r := Serialize(c, buffer);
    bytes := buffer[..];
    assert bytes[..4 * size] == bytes;
    WrapFits(4 * (TotalWords(c.values) + 2));
  }

  // ------------------------------------------------------------ what is received

  /** A C string: the bytes in front of the first NUL. */
  function UpToNul(b: seq<Byte>): (s: seq<Byte>) {
    if b == [] || b[0] == 0 then [] else [b[0]] + UpToNul(b[1..])
  }

  lemma {:induction false} UpToNulText(s: seq<Byte>, tail: seq<Byte>)
    requires 0 !in s
    ensures UpToNul(s + [0] + tail) == s
  {
    var b := s + [0] + tail;
    if s != [] {
      UpToNulText(s[1..], tail);
      assert b[1..] == s[1..] + [0] + tail && b[0] == s[0];
    }
  }

  /** The values read so far, what is left of the message and of the received fds, the
      map with the ids reserved so far, and the error that stopped the decoding. */
  datatype Decoding<T> = Decoding(
    values: seq<Value>, rest: seq<Byte>, fds: seq<Fd>, objects: ObjectMap<T>, error: Option<Errno>)

  /** Reads an argument other than an fd, whose first word is w and is followed by rest. */
  function DecodeValue<T>(d: Decoding<T>, arg: Arg, w: Word, rest: seq<Byte>): (r: Decoding<T>)
    requires arg.kind != FdArg
  {
    match arg.kind
    case IntArg | UintArg | FixedArg => d.(values := d.values + [Number(w)], rest := rest)
    case ObjectArg =>
      if w == 0 && !arg.nullable then d.(error := Some(EINVAL))
      else d.(values := d.values + [Id(w)], rest := rest)
    case NewIdArg =>
      if w == 0 then d.(error := Some(EINVAL))
      else (match ReserveNew(d.objects, w)
        case Err(e) => d.(error := Some(e))
        case Ok(m) => d.(values := d.values + [Id(w)], rest := rest, objects := m))
    case StringArg =>
      if w == 0 then
        if arg.nullable then d.(values := d.values + [Text(None)], rest := rest)
        else d.(error := Some(EINVAL))
      else if |rest| / 4 < RoundUp(w) then d.(error := Some(EINVAL))
      else if rest[w - 1] != 0 then d.(error := Some(EINVAL))
      else d.(values := d.values + [Text(Some(UpToNul(rest[..w])))], rest := rest[4 * RoundUp(w)..])
    case ArrayArg =>
      if |rest| / 4 < RoundUp(w) then d.(error := Some(EINVAL))
      else d.(values := d.values + [Bytes(Some(rest[..w]))], rest := rest[4 * RoundUp(w)..])
  }

  /** Reads one argument. */
  function DecodeOne<T>(d: Decoding<T>, arg: Arg): (r: Decoding<T>) {
    if arg.kind == FdArg then
      if d.fds == [] then d.(error := Some(EINVAL))
      else d.(values := d.values + [Handle(d.fds[0])], fds := d.fds[1..])
    else if |d.rest| < 4 then d.(error := Some(EINVAL))
    else DecodeValue(d, arg, ReadWord(d.rest[..4]), d.rest[4..])
  }

  /** Reads the arguments in turn until one is in error. */
  function DecodeAll<T>(d: Decoding<T>, args: seq<Arg>): (r: Decoding<T>)
    decreases |args|
  {
    if args == [] || d.error.Some? then d else DecodeAll(DecodeOne(d, args[0]), args[1..])
  }

  // ------------------------------------------------------------- the round trip

  /** What wl_closure_marshal lets pass: NULL only where the signature allows it.  C
      strings hold no NUL, objects have ids other than 0, and lengths fit 32 bits. */
  predicate Sendable(v: Value, arg: Arg) {
    && HasKind(v, arg.kind)
    && match v
       case Text(None) | Object(None) => arg.nullable
       case Text(Some(s)) => 0 !in s && |s| + 1 < TWO32
       case Object(Some(id)) => id != 0
       case Id(id) => id != 0
       case Bytes(a) => a.Some? && |a.value| < TWO32
       case _ => true
  }

  predicate AllSendable(vals: seq<Value>, args: seq<Arg>) {
    |vals| == |args| && forall i :: 0 <= i < |vals| ==> Sendable(vals[i], args[i])
  }

  /** What the receiver gets for a value: objects arrive as ids, and fds under the
      numbers they have in the receiving process. */
  function Delivered(vals: seq<Value>, fds: seq<Fd>): (r: seq<Value>)
    requires |Handles(vals)| <= |fds|
  {
    if vals == [] then []
    else match vals[0]
      case Handle(_) => [Handle(fds[0])] + Delivered(vals[1..], fds[1..])
      case Object(o) => [Id(if o.Some? then o.value else 0)] + Delivered(vals[1..], fds)
      case v => [v] + Delivered(vals[1..], fds)
  }

  /** The fds among the values. */
  function Handles(vals: seq<Value>): (fds: seq<Fd>) {
    if vals == [] then [] else (if vals[0].Handle? then [vals[0].fd] else []) + Handles(vals[1..])
  }

  /** The map after all new ids among the values have been reserved. */
  function ReserveAll<T>(vals: seq<Value>, m: ObjectMap<T>): (r: Result<ObjectMap<T>>) {
    if vals == [] then Ok(m)
    else if vals[0].Id? then
      (match ReserveNew(m, vals[0].id)
       case Ok(m') => ReserveAll(vals[1..], m')
       case Err(e) => Err(e))
    else ReserveAll(vals[1..], m)
  }

  /** The next value can be received. */
  predicate Ready<T>(d: Decoding<T>, v: Value) {
    && d.error.None? && (v.Handle? ==> d.fds != [])
    && (v.Id? ==> ReserveNew(d.objects, v.id).Ok?)
  }

  /** The decoding after the value v has arrived and tail is left. */
  function Arrived<T>(d: Decoding<T>, v: Value, tail: seq<Byte>): (r: Decoding<T>)
    requires Ready(d, v)
  {
    match v
    case Handle(_) => d.(values := d.values + [Handle(d.fds[0])], fds := d.fds[1..], rest := tail)
    case Object(o) => d.(values := d.values + [Id(if o.Some? then o.value else 0)], rest := tail)
    case Id(id) => d.(values := d.values + [v], objects := ReserveNew(d.objects, id).value, rest := tail)
    case _ => d.(values := d.values + [v], rest := tail)
  }

  /** What the reader sees of an encoded value: its first word and its payload. */
  lemma Seen(b: seq<Byte>, tail: seq<Byte>, v: Value)
    requires EncodesOne(b, v) && !v.Handle?
    ensures |b| >= 4 && ReadWord((b + tail)[..4]) == FirstWord(v)
    ensures var rest, n := (b + tail)[4..], |Payload(v)|;
            && |rest| >= 4 * RoundUp(n)
            && rest[..n] == Payload(v) && rest[4 * RoundUp(n)..] == tail
  {
    var s := b + tail;
    assert s[..4] == b[..4];
    ReadWordBytes(FirstWord(v));
    assert s[4..][..|Payload(v)|] == b[4..4 + |Payload(v)|];
    assert s[4..][|b| - 4..] == tail;
  }

  lemma TextArrives<T>(d: Decoding<T>, s: seq<Byte>, arg: Arg, b: seq<Byte>, tail: seq<Byte>)
    requires d.rest == b + tail && d.error.None? && arg.kind == StringArg
    requires EncodesOne(b, Text(Some(s))) && 0 !in s && |s| + 1 < TWO32
    ensures DecodeOne(d, arg) == Arrived(d, Text(Some(s)), tail)
  {
    var v := Text(Some(s));
    Seen(b, tail, v);
    WrapFits(|s| + 1);
    assert Payload(v) == s + [0];
    UpToNulText(s, []);
    assert s + [0] + [] == s + [0];
    assert d.rest[4..][|s|] == (s + [0])[|s|];
  }

  lemma BytesArrive<T>(d: Decoding<T>, a: seq<Byte>, arg: Arg, b: seq<Byte>, tail: seq<Byte>)
    requires d.rest == b + tail && d.error.None? && arg.kind == ArrayArg
    requires EncodesOne(b, Bytes(Some(a))) && |a| < TWO32
    ensures DecodeOne(d, arg) == Arrived(d, Bytes(Some(a)), tail)
  {
    var v := Bytes(Some(a));
    Seen(b, tail, v);
    WrapFits(|a|);
    assert Payload(v) == a;
  }

  /** One value arrives, whatever the padding. */
  lemma OneArrives<T>(d: Decoding<T>, v: Value, arg: Arg, b: seq<Byte>, tail: seq<Byte>)
    requires d.rest == b + tail && EncodesOne(b, v) && Sendable(v, arg) && Ready(d, v)
    ensures DecodeOne(d, arg) == Arrived(d, v, tail)
  {
    match v
    case Handle(_) => assert b == [] && d.rest == tail;
    case Text(s) =>
      if s.Some? {
        TextArrives(d, s.value, arg, b, tail);
      } else {
        PlainArrives(d, v, arg, b, tail);
      }
    case Bytes(a) => BytesArrive(d, a.value, arg, b, tail);
    case Number(_) => PlainArrives(d, v, arg, b, tail);
    case Object(_) => PlainArrives(d, v, arg, b, tail);
    case Id(_) => PlainArrives(d, v, arg, b, tail);
  }

  lemma PlainArrives<T>(d: Decoding<T>, v: Value, arg: Arg, b: seq<Byte>, tail: seq<Byte>)
    requires d.rest == b + tail && EncodesOne(b, v) && Sendable(v, arg) && Ready(d, v)
    requires v.Number? || v.Object? || v.Id? || v == Text(None)
    ensures DecodeOne(d, arg) == Arrived(d, v, tail)
  {
    Seen(b, tail, v);
    assert Payload(v) == [] && d.rest[4..] == tail;
  }

  lemma Regroup<T>(a: seq<T>, x: T, b: seq<T>)
    ensures a + ([x] + b) == a + [x] + b
  {
  }

  lemma ReadyNext<T>(d: Decoding<T>, vals: seq<Value>, tail: seq<Byte>)
    requires vals != [] && d.error.None?
    requires |Handles(vals)| <= |d.fds| && ReserveAll(vals, d.objects).Ok?
    ensures Ready(d, vals[0])
    ensures var r := Arrived(d, vals[0], tail);
            && |Handles(vals[1..])| <= |r.fds| && ReserveAll(vals[1..], r.objects).Ok?
            && d.fds[|Handles(vals)|..] == r.fds[|Handles(vals[1..])|..]
            && ReserveAll(vals, d.objects) == ReserveAll(vals[1..], r.objects)
            && r.rest == tail && r.error.None?
  {
    HandlesCount(vals);
    if vals[0].Handle? {
      DropMore(d.fds, |Handles(vals[1..])|);
    }
  }

  lemma HandlesCount(vals: seq<Value>)
    requires vals != []
    ensures |Handles(vals)| == |Handles(vals[1..])| + (if vals[0].Handle? then 1 else 0)
  {
  }

  lemma DropMore(fds: seq<Fd>, n: nat)
    requires n < |fds|
    ensures fds[1..][n..] == fds[n + 1..]
  {
  }

  lemma DeliveredNext<T>(d: Decoding<T>, vals: seq<Value>, tail: seq<Byte>)
    requires vals != [] && Ready(d, vals[0]) && |Handles(vals)| <= |d.fds|
    requires |Handles(vals[1..])| <= |Arrived(d, vals[0], tail).fds|
    ensures var r := Arrived(d, vals[0], tail);
            d.values + Delivered(vals, d.fds) == r.values + Delivered(vals[1..], r.fds)
  {
    var r := Arrived(d, vals[0], tail);
    var x := r.values[|d.values|];
    assert r.values == d.values + [x];
    Regroup(d.values, x, Delivered(vals[1..], r.fds));
    assert Delivered(vals, d.fds) == [x] + Delivered(vals[1..], r.fds);
  }

  /** The values arrive in order, the fds are taken from the front of those received, and
      the new ids are reserved. */
  lemma {:induction false} AllArrive<T>(d: Decoding<T>, vals: seq<Value>, args: seq<Arg>, b: seq<Byte>,
                                        tail: seq<Byte>)
    requires d.rest == b + tail && d.error.None?
    requires Encodes(b, vals) && AllSendable(vals, args) && |Handles(vals)| <= |d.fds|
    requires ReserveAll(vals, d.objects).Ok?
    ensures DecodeAll(d, args) == Decoding(d.values + Delivered(vals, d.fds), tail, d.fds[|Handles(vals)|..],
                                           ReserveAll(vals, d.objects).value, None)
    decreases |vals|
  {
    if vals == [] {
      assert d.rest == tail && d.values + [] == d.values;
    } else {
      var n := 4 * WordCount(vals[0]);
      assert d.rest == b[..n] + (b[n..] + tail);
      ReadyNext(d, vals, b[n..] + tail);
      DeliveredNext(d, vals, b[n..] + tail);
      OneArrives(d, vals[0], args[0], b[..n], b[n..] + tail);
      AllArrive(Arrived(d, vals[0], b[n..] + tail), vals[1..], args[1..], b[n..], tail);
    }
  }

  /** The whole words after the header. */
  function Body(message: seq<Byte>): seq<Byte>
    requires |message| >= 8
  {
    message[8..4 * (|message| / 4)]
  }

  /** Decoding of the body of a message. */
  function Decode<T>(message: seq<Byte>, args: seq<Arg>, fds: seq<Fd>, m: ObjectMap<T>): (d: Decoding<T>)
    requires |message| >= 8
  {
    DecodeAll(Decoding([], Body(message), fds, m, None), args)
  }

  /** The body of a closure decodes to its values, whatever the padding. */
  lemma RoundTrip<T>(c: Closure, b: seq<Byte>, fds: seq<Fd>, m: ObjectMap<T>)
    requires EncodesMessage(b, c) && AllSendable(c.values, Arguments(c.signature))
    requires |Handles(c.values)| <= |fds| && ReserveAll(c.values, m).Ok?
    ensures Decode(b, Arguments(c.signature), fds, m)
         == Decoding(Delivered(c.values, fds), [], fds[|Handles(c.values)|..], ReserveAll(c.values, m).value, None)
  {
    BodyArrives(b[8..], c.values, Arguments(c.signature), fds, m);
    EncodesLength(b[8..], c.values);
    WholeBody(b);
  }

  lemma WholeBody(b: seq<Byte>)
    requires |b| >= 8 && |b[8..]| % 4 == 0
    ensures Body(b) == b[8..]
  {
    assert 4 * (|b| / 4) == |b|;
  }

  lemma BodyArrives<T>(b: seq<Byte>, vals: seq<Value>, args: seq<Arg>, fds: seq<Fd>, m: ObjectMap<T>)
    requires Encodes(b, vals) && AllSendable(vals, args)
    requires |Handles(vals)| <= |fds| && ReserveAll(vals, m).Ok?
    ensures DecodeAll(Decoding([], b, fds, m, None), args)
         == Decoding(Delivered(vals, fds), [], fds[|Handles(vals)|..], ReserveAll(vals, m).value, None)
  {
    assert b + [] == b;
    AllArrive(Decoding([], b, fds, m, None), vals, args, b, []);
    assert [] + Delivered(vals, fds) == Delivered(vals, fds);
  }

  /** The header of a closure that a connection accepts gives its sender, its opcode and
      its exact size, so the receiver cuts it out of the stream as one message. */
  lemma HeaderRead(b: seq<Byte>, c: Closure)
    requires EncodesMessage(b, c) && |b| <= SIZE && c.opcode < 0x1_0000
    ensures ReadWord(b[..4]) == c.sender && ReadWord(b[4..8]) % 0x1_0000 == c.opcode
    ensures FrameSize(b) == |b|
  {
    HeaderWords(b[..4], b[4..8], c.sender, c.opcode, |b|);
  }

  lemma MessageIsFrame(b: seq<Byte>, c: Closure)
    requires EncodesMessage(b, c) && |b| <= SIZE && c.opcode < 0x1_0000
    ensures WellFormed(b)
  {
    HeaderRead(b, c);
    SingleFrame(b);
  }

  lemma HeaderWords(b0: seq<Byte>, b1: seq<Byte>, sender: Word, opcode: Word, n: nat)
    requires n < 0x1_0000 && opcode < 0x1_0000 && b0 == WordBytes(sender)
    requires b1 == WordBytes(Wrap(0x1_0000 * n + opcode % 0x1_0000))
    ensures ReadWord(b0) == sender
    ensures ReadWord(b1) / 0x1_0000 == n && ReadWord(b1) % 0x1_0000 == opcode
  {
    HeaderParts(n, opcode);
    ReadWordBytes(sender);
    ReadWordBytes(0x1_0000 * n + opcode);
  }

  lemma SingleFrame(b: seq<Byte>)
    requires 8 <= |b| <= SIZE && FrameSize(b) == |b|
    ensures WellFormed(b)
  {
    assert b[|b|..] == [];
  }

  lemma HeaderParts(n: nat, opcode: nat)
    requires n < 0x1_0000 && opcode < 0x1_0000
    ensures var header := 0x1_0000 * n + opcode % 0x1_0000;
            && Wrap(header) == header == 0x1_0000 * n + opcode < TWO32
            && header / 0x1_0000 == n && header % 0x1_0000 == opcode
  {
  }

  lemma {:induction false} EncodesLength(b: seq<Byte>, vals: seq<Value>)
    requires Encodes(b, vals)
    ensures |b| % 4 == 0
    decreases |vals|
  {
    if vals != [] {
      var n := WordCount(vals[0]);
      EncodesLength(b[4 * n..], vals[1..]);
      FourMore(n, |b[4 * n..]|);
    }
  }

  lemma FourMore(n: nat, m: nat)
    ensures (4 * n + m) % 4 == m % 4
  {
  }

  // -------------------------------------------------------- the receiving loop

  /** Arrays may only have been moved to fresh memory. */
  twostate predicate DataKept(table: ObjectTable)
    reads table.client, table.server
  {
    && (table.client.data == old(table.client.data) || fresh(table.client.data))
    && (table.server.data == old(table.server.data) || fresh(table.server.data))
  }

  /** A word of the body, if there is one. */
  lemma BodyWord(body: seq<Byte>, p: nat)
    requires |body| % 4 == 0 && 4 * p <= |body|
    ensures |body[4 * p..]| >= 4 <==> 4 * (p + 1) <= |body|
    ensures 4 * (p + 1) <= |body| ==>
              body[4 * p..][..4] == body[4 * p..4 * p + 4] && body[4 * p..][4..] == body[4 * (p + 1)..]
  {
  }

  /** Where a payload of n bytes after word q ends. */
  lemma BodyPayload(body: seq<Byte>, q: nat, n: nat)
    requires |body| % 4 == 0 && 4 * q <= |body|
    ensures var rest := body[4 * q..];
            && (|rest| / 4 < RoundUp(n) <==> |body| / 4 - q < RoundUp(n))
            && (|body| / 4 - q >= RoundUp(n) ==>
                  && 4 * (q + RoundUp(n)) <= |body| && n <= |rest|
                  && rest[..n] == body[4 * q..4 * q + n]
                  && rest[4 * RoundUp(n)..] == body[4 * (q + RoundUp(n))..])
  {
  }

  /** The C string at word q of the body. */
  method ReadText(body: seq<Byte>, q: nat, w: nat) returns (s: seq<Byte>)
    requires 4 * q + w <= |body|
    ensures s == UpToNul(body[4 * q..4 * q + w])
  {
    s := [];
    var i := 4 * q;
    while i < 4 * q + w && body[i] != 0
      invariant 4 * q <= i <= 4 * q + w
      invariant s + UpToNul(body[i..4 * q + w]) == UpToNul(body[4 * q..4 * q + w])
    {
      assert body[i..4 * q + w][1..] == body[i + 1..4 * q + w];
      s := s + [body[i]];
      i := i + 1;
    }
  }

  /** Reads a string or an array, whose length w stands before word q. */
  method ReadBlock(body: seq<Byte>, q: nat, w: Word, arg: Arg, ghost d: Decoding<nat>)
    returns (value: Value, p: nat, error: Option<Errno>)
    requires |body| % 4 == 0 && 4 * q <= |body| && (arg.kind == StringArg || arg.kind == ArrayArg)
    requires d.error.None?
    ensures Outcome(d, DecodeValue(d, arg, w, body[4 * q..]), body, value, p, error)
  {
    p, error, value := q, None, Text(None);
    BodyPayload(body, q, w);
    if arg.kind == StringArg {
      if w == 0 {
        error := if arg.nullable then None else Some(EINVAL);
        return;
      }
      if |body| / 4 - q < RoundUp(w) || body[4 * q + w - 1] != 0 {
        error := Some(EINVAL);
        return;
      }
      var s := ReadText(body, q, w);
      value := Text(Some(s));
    } else {
      if |body| / 4 - q < RoundUp(w) {
        error := Some(EINVAL);
        return;
      }
      value := Bytes(Some(body[4 * q..4 * q + w]));
    }
    p := q + RoundUp(w);
  }

  /** An argument other than an fd or a new id. */
  method ReadPlain(body: seq<Byte>, q: nat, w: Word, arg: Arg, ghost d: Decoding<nat>)
    returns (value: Value, p: nat, error: Option<Errno>)
    requires |body| % 4 == 0 && 4 * q <= |body| && arg.kind != FdArg && arg.kind != NewIdArg
    requires d.error.None?
    ensures Outcome(d, DecodeValue(d, arg, w, body[4 * q..]), body, value, p, error)
  {
    if arg.kind == StringArg || arg.kind == ArrayArg {
      value, p, error := ReadBlock(body, q, w, arg, d);
    } else if arg.kind == ObjectArg {
      value, p, error := Id(w), q, if w == 0 && !arg.nullable then Some(EINVAL) else None;
    } else {
      value, p, error := Number(w), q, None;
    }
  }

  /** The decoding r follows d by one value, read up to word p of the body, or by an error;
      fds and map are not touched. */
  ghost predicate Outcome(d: Decoding<nat>, r: Decoding<nat>, body: seq<Byte>, value: Value, p: nat,
                          error: Option<Errno>)
  {
    && error == r.error && r.fds == d.fds && r.objects == d.objects
    && (error.Some? ==> r.values == d.values)
    && (error.None? ==> 4 * p <= |body| && r.rest == body[4 * p..] && r.values == d.values + [value])
  }

  /** A new id is reserved in the receiver's map. */
  method ReadNewId(table: ObjectTable, w: Word) returns (error: Option<Errno>)
    requires table.Valid()
    modifies table.client, table.server, table.client.data, table.server.data
    ensures table.Valid() && DataKept(table)
    ensures if w == 0 then error == Some(EINVAL) && table.View() == old(table.View())
            else match ReserveNew(old(table.View()), w)
              case Ok(m) => error.None? && table.View() == m
              case Err(e) => error == Some(e) && table.View() == old(table.View())
  {
    error := Some(EINVAL);
    if w != 0 {
      error := table.ReserveEntry(w);
    }
  }

  /** Reads an argument that is neither an fd nor a new id, at word p. */
  method ReadPlainArg(body: seq<Byte>, p: nat, arg: Arg, ghost d: Decoding<nat>)
    returns (value: Value, p': nat, error: Option<Errno>)
    requires d.error.None? && arg.kind != FdArg && arg.kind != NewIdArg
    requires |body| % 4 == 0 && 4 * p <= |body| && d.rest == body[4 * p..]
    ensures Outcome(d, DecodeOne(d, arg), body, value, p', error)
  {
    BodyWord(body, p);
    if 4 * (p + 1) > |body| {
      return Number(0), p, Some(EINVAL);
    }
    value, p', error := ReadPlain(body, p + 1, ReadWord(body[4 * p..4 * p + 4]), arg, d);
  }

  /** Reads a new id, at word p. */
  method ReadNewIdArg(table: ObjectTable, body: seq<Byte>, p: nat, arg: Arg, ghost d: Decoding<nat>)
    returns (value: Value, p': nat, error: Option<Errno>)
    requires table.Valid() && table.View() == d.objects && d.error.None? && arg.kind == NewIdArg
    requires |body| % 4 == 0 && 4 * p <= |body| && d.rest == body[4 * p..]
    modifies table.client, table.server, table.client.data, table.server.data
    ensures table.Valid() && DataKept(table) && table.View() == DecodeOne(d, arg).objects
    ensures Outcome(d, DecodeOne(d, arg).(objects := d.objects), body, value, p', error)
  {
    BodyWord(body, p);
    if 4 * (p + 1) > |body| {
      return Number(0), p, Some(EINVAL);
    }
    var w := ReadWord(body[4 * p..4 * p + 4]);
    NewIdDecoded(d, arg, w);
    error := ReadNewId(table, w);
    value, p' := Id(w), p + 1;
  }

  /** How a new id is decoded. */
  lemma NewIdDecoded(d: Decoding<nat>, arg: Arg, w: Word)
    requires arg.kind == NewIdArg && |d.rest| >= 4 && w == ReadWord(d.rest[..4])
    ensures DecodeOne(d, arg) ==
              if w == 0 then d.(error := Some(EINVAL))
              else match ReserveNew(d.objects, w)
                case Err(e) => d.(error := Some(e))
                case Ok(m) => d.(values := d.values + [Id(w)], rest := d.rest[4..], objects := m)
  {
  }

  /** Reads an argument that is not an fd, at word p. */
  method ReadWordArg(table: ObjectTable, body: seq<Byte>, p: nat, arg: Arg, ghost d: Decoding<nat>)
    returns (value: Value, p': nat, error: Option<Errno>)
    requires table.Valid() && table.View() == d.objects && d.error.None? && arg.kind != FdArg
    requires |body| % 4 == 0 && 4 * p <= |body| && d.rest == body[4 * p..]
    modifies table.client, table.server, table.client.data, table.server.data
    ensures table.Valid() && DataKept(table) && table.View() == DecodeOne(d, arg).objects
    ensures Outcome(d, DecodeOne(d, arg).(objects := d.objects), body, value, p', error)
  {
    if arg.kind == NewIdArg {
      value, p', error := ReadNewIdArg(table, body, p, arg, d);
    } else {
      value, p', error := ReadPlainArg(body, p, arg, d);
    }
  }

  /** Reads an fd argument. */
  method ReadFdArg(fdsIn: RingBuffer, body: seq<Byte>, p: nat, arg: Arg, ghost d: Decoding<nat>)
    returns (value: Value, error: Option<Errno>)
    requires fdsIn.Valid() && |fdsIn.Contents()| % 4 == 0 && FdsIn(fdsIn) == d.fds
    requires 4 * p <= |body| && d.rest == body[4 * p..] && d.error.None? && arg.kind == FdArg
    modifies fdsIn`tail
    ensures fdsIn.Valid() && |fdsIn.Contents()| % 4 == 0 && FdsIn(fdsIn) == DecodeOne(d, arg).fds
    ensures Outcome(d, DecodeOne(d, arg).(fds := d.fds), body, value, p, error)
  {
    error, value := None, Number(0);
    if fdsIn.Size() == 0 {
      error := Some(EINVAL);
    } else {
      var fd := PopFd(fdsIn);
      value := Handle(fd);
    }
  }

  /** What the table and the buffer of received fds hold, if they are well formed. */
  ghost function Holding(table: ObjectTable, fdsIn: RingBuffer): (r: Option<(ObjectMap<nat>, seq<Fd>)>)
    reads table, table.client, table.server, table.client.data, table.server.data, fdsIn, fdsIn.data
  {
    if table.Valid() && fdsIn.Valid() && |fdsIn.Contents()| % 4 == 0 then Some((table.View(), FdsIn(fdsIn))) else None
  }

  /** The receiver's state is that of the decoding d, which has read up to word p. */
  ghost predicate Agree(table: ObjectTable, fdsIn: RingBuffer, d: Decoding<nat>, body: seq<Byte>, p: nat,
                        values: seq<Value>, error: Option<Errno>)
    reads table, table.client, table.server, table.client.data, table.server.data, fdsIn, fdsIn.data
  {
    && Holding(table, fdsIn) == Some((d.objects, d.fds))
    && values == d.values && error == d.error
    && (error.None? ==> 4 * p <= |body| && d.rest == body[4 * p..])
  }

  method ReadNextWord(table: ObjectTable, ghost fdsIn: RingBuffer, body: seq<Byte>, p: nat, arg: Arg,
                      values: seq<Value>, ghost d: Decoding<nat>)
    returns (values': seq<Value>, p': nat, error: Option<Errno>, ghost d': Decoding<nat>)
    requires Agree(table, fdsIn, d, body, p, values, None) && |body| % 4 == 0 && arg.kind != FdArg
    modifies table.client, table.server, table.client.data, table.server.data
    ensures DataKept(table) && Agree(table, fdsIn, d', body, p', values', error)
    ensures d' == DecodeOne(d, arg)
  {
    var value;
    value, p', error := ReadWordArg(table, body, p, arg, d);
    assert fdsIn.Valid() && FdsIn(fdsIn) == d.fds && |fdsIn.Contents()| % 4 == 0;
    d' := DecodeOne(d, arg);
    values' := if error.None? then values + [value] else values;
  }

  method ReadNextFd(ghost table: ObjectTable, fdsIn: RingBuffer, body: seq<Byte>, p: nat, arg: Arg,
                    values: seq<Value>, ghost d: Decoding<nat>)
    returns (values': seq<Value>, error: Option<Errno>, ghost d': Decoding<nat>)
    requires Agree(table, fdsIn, d, body, p, values, None) && |body| % 4 == 0 && arg.kind == FdArg
    modifies fdsIn`tail
    ensures Agree(table, fdsIn, d', body, p, values', error)
    ensures d' == DecodeOne(d, arg)
  {
    var value;
    value, error := ReadFdArg(fdsIn, body, p, arg, d);
    values' := if error.None? then values + [value] else values;
    d' := DecodeOne(d, arg);
  }

  /** One round of the loop: the first of args is read. */
  method ReadNext(table: ObjectTable, fdsIn: RingBuffer, body: seq<Byte>, p: nat, arg: Arg, values: seq<Value>,
                  ghost d: Decoding<nat>, ghost args: seq<Arg>)
    returns (values': seq<Value>, p': nat, error: Option<Errno>, ghost d': Decoding<nat>)
    requires Agree(table, fdsIn, d, body, p, values, None) && |body| % 4 == 0
    requires args != [] && arg == args[0]
    modifies table.client, table.server, table.client.data, table.server.data, fdsIn`tail
    ensures DataKept(table) && Agree(table, fdsIn, d', body, p', values', error)
    ensures DecodeAll(d', args[1..]) == DecodeAll(d, args)
  {
    DecodeFirst(d, args);
    if arg.kind == FdArg {
      values', error, d' := ReadNextFd(table, fdsIn, body, p, arg, values, d);
      p' := p;
    } else {
      values', p', error, d' := ReadNextWord(table, fdsIn, body, p, arg, values, d);
    }
  }

  lemma DecodeFirst(d: Decoding<nat>, args: seq<Arg>)
    requires args != [] && d.error.None?
    ensures DecodeAll(DecodeOne(d, args[0]), args[1..]) == DecodeAll(d, args)
  {
  }

  /** The first argument of the signature from `at` on is read. */
  method ReadFirst(table: ObjectTable, fdsIn: RingBuffer, body: seq<Byte>, p: nat, signature: string, at: nat,
                   ghost count: nat, values: seq<Value>, ghost d: Decoding<nat>, ghost result: Decoding<nat>)
    returns (values': seq<Value>, p': nat, error: Option<Errno>, at': nat, ghost d': Decoding<nat>)
    requires Agree(table, fdsIn, d, body, p, values, None) && |body| % 4 == 0
    requires at <= |signature| && count > 0 && LeftToRead(d, signature, at, count, result)
    modifies table.client, table.server, table.client.data, table.server.data, fdsIn`tail
    ensures DataKept(table) && Agree(table, fdsIn, d', body, p', values', error)
    ensures at' <= |signature| && LeftToRead(d', signature, at', count - 1, result)
  {
    var kind, nullable;
    kind, nullable, at' := NextArgument(signature, at);
    values', p', error, d' := ReadNext(table, fdsIn, body, p, Arg(kind.value, nullable), values, d,
                                       Arguments(signature[at..]));
  }

  /** The loop of wl_connection_demarshal: the arguments are read one after the other
      until one is in error. */
  method ReadArgs(table: ObjectTable, fdsIn: RingBuffer, body: seq<Byte>, signature: string, ghost d0: Decoding<nat>)
    returns (values: seq<Value>, error: Option<Errno>, p: nat, ghost d: Decoding<nat>)
    requires Agree(table, fdsIn, d0, body, 0, [], None) && |body| % 4 == 0
    modifies table.client, table.server, table.client.data, table.server.data, fdsIn`tail
    ensures DataKept(table) && Agree(table, fdsIn, d, body, p, values, error)
    ensures d == DecodeAll(d0, Arguments(signature))
  {
    var count := ArgCount(signature);
    var at: nat := 0;
    values, error, p, d := [], None, 0, d0;
    assert signature[0..] == signature;
    ghost var result := DecodeAll(d0, Arguments(signature));
    while count > 0 && error.None?
      invariant at <= |signature| && LeftToRead(d, signature, at, count, result)
      invariant DataKept(table) && Agree(table, fdsIn, d, body, p, values, error)
      decreases count
    {
      values, p, error, at, d := ReadFirst(table, fdsIn, body, p, signature, at, count, values, d, result);
      count := count - 1;
    }
    NothingLeft(d, signature, at, count, result);
  }

  /** `count` arguments are left, and reading them gives the result. */
  ghost predicate LeftToRead(d: Decoding<nat>, signature: string, at: nat, count: nat, result: Decoding<nat>)
    requires at <= |signature|
  {
    |Arguments(signature[at..])| == count && DecodeAll(d, Arguments(signature[at..])) == result
  }

  lemma NothingLeft(d: Decoding<nat>, signature: string, at: nat, count: nat, result: Decoding<nat>)
    requires at <= |signature| && LeftToRead(d, signature, at, count, result) && (count == 0 || d.error.Some?)
    ensures d == result
  {
  }

  /** wl_closure_destroy: the fds the closure still holds are closed, in this order. */
  method CloseHandles(values: seq<Value>) returns (closed: seq<Fd>)
    ensures closed == Handles(values)
  {
    closed := [];
    assert values[..0] == [];
    for i := 0 to |values|
      invariant closed == Handles(values[..i])
    {
      HandlesNext(values, i);
      if values[i].Handle? {
        closed := closed + [values[i].fd];
      }
    }
    assert values[..|values|] == values;
  }

  lemma {:induction false} HandlesNext(values: seq<Value>, i: nat)
    requires i < |values|
    ensures Handles(values[..i + 1]) == Handles(values[..i]) + if values[i].Handle? then [values[i].fd] else []
    decreases i
  {
    if i > 0 {
      HandlesNext(values[1..], i - 1);
      assert values[1..][..i] == values[..i + 1][1..] && values[1..][..i - 1] == values[..i][1..];
    } else {
      assert values[..1][1..] == [] && values[..0] == [];
    }
  }

  function ClosureOf(message: seq<Byte>, signature: string, values: seq<Value>): Closure
    requires |message| >= 8
  {
    Closure(ReadWord(message[..4]), ReadWord(message[4..8]) % 0x1_0000, signature, values)
  }

  /** A message whose arguments were read becomes a closure; after an error the fds that
      were taken for it are closed. */
  ghost predicate Concluded(message: seq<Byte>, signature: string, values: seq<Value>, error: Option<Errno>,
                            r: Result<Closure>, closed: seq<Fd>)
    requires |message| >= 8
  {
    if error.None? then r == Ok(ClosureOf(message, signature, values)) && closed == []
    else r == Err(error.value) && closed == Handles(values)
  }

  /** The end of wl_connection_demarshal. */
  method Conclude(message: seq<Byte>, signature: string, values: seq<Value>, error: Option<Errno>)
    returns (r: Result<Closure>, closed: seq<Fd>)
    requires |message| >= 8
    ensures Concluded(message, signature, values, error, r, closed)
  {
    if error.Some? {
      closed := CloseHandles(values);
      r := Err(error.value);
    } else {
      r, closed := Ok(ClosureOf(message, signature, values)), [];
    }
  }

  /** Messages refused without reading their arguments. */
  predicate Refused(message: seq<Byte>, signature: string) {
    |message| < 8 || |Arguments(signature)| > MAX_ARGS
  }

  lemma BodyAligned(message: seq<Byte>)
    requires |message| >= 8
    ensures |Body(message)| % 4 == 0
  {
  }

  /** The checks of wl_connection_demarshal before it reads an argument; a refused message
      gives EINVAL and touches neither the fds nor the map. */
  method CheckHeader(message: seq<Byte>, signature: string) returns (error: Option<Errno>)
    ensures error == if Refused(message, signature) then Some(EINVAL) else None
  {
    if |message| < 8 {
      return Some(EINVAL);
    }
    var count := ArgCount(signature);
    error := if count > MAX_ARGS then Some(EINVAL) else None;
  }

  /** The middle of wl_connection_demarshal, on the bytes of one message: the arguments are
      read, fds are taken from those received, and new ids are reserved in the map. */
  method Demarshal(table: ObjectTable, fdsIn: RingBuffer, message: seq<Byte>, signature: string,
                   ghost fds: seq<Fd>, ghost m: ObjectMap<nat>)
    returns (values: seq<Value>, error: Option<Errno>, ghost d: Decoding<nat>)
    requires table.Valid() && table.View() == m && |message| >= 8
    requires fdsIn.Valid() && |fdsIn.Contents()| % 4 == 0 && FdsIn(fdsIn) == fds
    modifies table.client, table.server, table.client.data, table.server.data, fdsIn`tail
    ensures DataKept(table) && table.Valid() && fdsIn.Valid() && |fdsIn.Contents()| % 4 == 0
    ensures d == Decode(message, Arguments(signature), fds, m)
    ensures values == d.values && error == d.error && FdsIn(fdsIn) == d.fds && table.View() == d.objects
  {
    BodyAligned(message);
    var p;
    values, error, p, d := ReadArgs(table, fdsIn, Body(message), signature,
                                    Decoding([], Body(message), fds, m, None));
  }

  // ------------------------------------------------------------ the sending side

  /** Values a caller passes for an argument: a new object is passed as a pointer. */
  predicate Fitting(v: Value, arg: Arg) {
    if arg.kind == NewIdArg then v.Object? else HasKind(v, arg.kind)
  }

  predicate AllFitting(args: seq<Value>, sig: seq<Arg>) {
    |args| == |sig| && forall i :: 0 <= i < |args| ==> Fitting(args[i], sig[i])
  }

  /** NULL where wl_closure_marshal does not take it: never for new objects and arrays. */
  predicate NullRefused(v: Value, arg: Arg)
    requires Fitting(v, arg)
  {
    match arg.kind
    case StringArg => v.text.None? && !arg.nullable
    case ObjectArg => v.objectId.None? && !arg.nullable
    case NewIdArg => v.objectId.None?
    case ArrayArg => v.bytes.None?
    case _ => false
  }

  /** The closure's value for an argument: a new object by its id, an fd by a duplicate. */
  predicate Stands(v: Value, arg: Arg, w: Value)
    requires Fitting(v, arg)
  {
    match arg.kind
    case NewIdArg => v.objectId.Some? && w == Id(v.objectId.value)
    case FdArg => w.Handle?
    case _ => w == v
  }

  /** Duplicates an fd, or fails. */
  method DupFd() returns (fd: Option<Fd>) {
    fd := *;
  }

  /** wl_closure_marshal.  It fails for too many arguments, for a NULL where none may be,
      and when an fd cannot be duplicated; then every duplicate made is closed again. */
  method Marshal(sender: Word, opcode: Word, args: seq<Value>, signature: string)
    returns (r: Option<Closure>, dups: seq<Fd>, closed: seq<Fd>, dupFailed: bool)
    requires AllFitting(args, Arguments(signature))
    ensures var sig := Arguments(signature);
            var refused := |sig| > MAX_ARGS || exists i :: 0 <= i < |args| && NullRefused(args[i], sig[i]);
            && (refused ==> r.None?)
            && (r.None? ==> (refused || dupFailed) && closed == dups)
            && (r.Some? ==>
                  && r.value == Closure(sender, opcode, signature, r.value.values) && |r.value.values| == |args|
                  && (forall i :: 0 <= i < |args| ==> Stands(args[i], sig[i], r.value.values[i]))
                  && Handles(r.value.values) == dups && closed == [])
  {
    r, dups, closed, dupFailed := None, [], [], false;
    var count := ArgCount(signature);
    if count > MAX_ARGS {
      return;
    }
    var at: nat := 0;
    var values: seq<Value> := [];
    ghost var sig := Arguments(signature);
    for i := 0 to count
      invariant at <= |signature| && Arguments(signature[at..]) == sig[i..]
      invariant |values| == i && Handles(values) == dups && !dupFailed && r == None && closed == []
      invariant forall j :: 0 <= j < i ==> !NullRefused(args[j], sig[j]) && Stands(args[j], sig[j], values[j])
    {
      var kind, nullable;
      kind, nullable, at := NextArgument(signature, at);
      var arg := Arg(kind.value, nullable);
      assert arg == sig[i];
      if NullRefused(args[i], arg) {
        closed := CloseHandles(values);
        return;
      }
      var v := args[i];
      if arg.kind == NewIdArg {
        v := Id(args[i].objectId.value);
      } else if arg.kind == FdArg {
        var fd := DupFd();
        if fd.None? {
          closed := CloseHandles(values);
          dupFailed := true;
          return;
        }
        v := Handle(fd.value);
        dups := dups + [fd.value];
      }
      HandlesNext(values + [v], i);
      assert (values + [v])[..i + 1] == values + [v] && (values + [v])[..i] == values;
      values := values + [v];
    }
    r := Some(Closure(sender, opcode, signature, values));
  }

  /** Arguments that can be put on the wire: C strings without a NUL, lengths that fit 32
      bits, objects that have an id. */
  predicate WireReady(v: Value) {
    match v
    case Text(Some(s)) => 0 !in s && |s| + 1 < TWO32
    case Bytes(Some(a)) => |a| < TWO32
    case Object(Some(id)) => id != 0
    case _ => true
  }

  /** What wl_closure_marshal lets pass can be sent and received. */
  lemma MarshalledIsSendable(args: seq<Value>, sig: seq<Arg>, vals: seq<Value>)
    requires AllFitting(args, sig) && |vals| == |args|
    requires forall i :: 0 <= i < |args| ==> WireReady(args[i]) && !NullRefused(args[i], sig[i])
    requires forall i :: 0 <= i < |args| ==> Stands(args[i], sig[i], vals[i])
    ensures AllSendable(vals, sig) && HaveKinds(vals, sig)
  {
    forall i | 0 <= i < |vals| ensures Sendable(vals[i], sig[i]) {
      assert WireReady(args[i]) && !NullRefused(args[i], sig[i]) && Stands(args[i], sig[i], vals[i]);
    }
  }
}
