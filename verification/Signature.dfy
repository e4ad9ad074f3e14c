/** Message signatures: one character per argument, `?` before a nullable one, and
    digits in front for the version that introduced the message. */
module Signatures {
  import opened Wrappers

  /** No message has more arguments. */
  const MAX_ARGS: nat := 20

  datatype Kind = IntArg | UintArg | FixedArg | StringArg | ObjectArg | NewIdArg | ArrayArg | FdArg

  datatype Arg = Arg(kind: Kind, nullable: bool)

  function KindOf(c: char): (k: Option<Kind>) {
    match c
    case 'i' => Some(IntArg)
    case 'u' => Some(UintArg)
    case 'f' => Some(FixedArg)
    case 's' => Some(StringArg)
    case 'o' => Some(ObjectArg)
    case 'n' => Some(NewIdArg)
    case 'a' => Some(ArrayArg)
    case 'h' => Some(FdArg)
    case _ => None
  }

  /** The arguments a signature describes.  A `?` applies to the next argument, whatever
      stands between them; other characters mean nothing here. */
  function Arguments(signature: string, nullable: bool := false): (args: seq<Arg>) {
    if signature == "" then []
    else
      var c := signature[0];
      match KindOf(c)
      case Some(k) => [Arg(k, nullable)] + Arguments(signature[1..])
      case None => Arguments(signature[1..], nullable || c == '?')
  }

  /** get_next_argument: reads on from position `at`.  No kind means that the signature
      has ended. */
  method NextArgument(signature: string, at: nat) returns (kind: Option<Kind>, nullable: bool, next: nat)
    requires at <= |signature|
    ensures at <= next <= |signature|
    ensures var args := Arguments(signature[at..]);
            && (args == [] ==> kind == None && next == |signature|)
            && (args != [] ==>
                  && kind == Some(args[0].kind) && nullable == args[0].nullable
                  && Arguments(signature[next..]) == args[1..])
  {
    nullable := false;
    next := at;
    while next < |signature|
      invariant at <= next <= |signature|
      invariant Arguments(signature[next..], nullable) == Arguments(signature[at..])
    {
      var c := signature[next];
      kind := KindOf(c);
      assert signature[next..][1..] == signature[next + 1..];
      next := next + 1;
      if kind.Some? {
        return;
      }
      if c == '?' {
        nullable := true;
      }
    }
    kind := None;
  }

  /** arg_count_for_signature. */
  method ArgCount(signature: string) returns (count: nat)
    ensures count == |Arguments(signature)|
  {
    count := 0;
    ghost var nullable := false;
    for i := 0 to |signature|
      invariant count + |Arguments(signature[i..], nullable)| == |Arguments(signature)|
    {
      assert signature[i..][1..] == signature[i + 1..];
      if KindOf(signature[i]).Some? {
        count := count + 1;
        nullable := false;
      } else if signature[i] == '?' {
        nullable := true;
      }
    }
  }

  predicate IsDigit(c: char) { '0' <= c <= '9' }

  /** The value of the digits a signature starts with. */
  function LeadingNumber(signature: string, value: nat := 0): (n: nat) {
    if signature == "" || !IsDigit(signature[0]) then value
    else LeadingNumber(signature[1..], 10 * value + (signature[0] as int - '0' as int))
  }

  predicate IsSpace(c: char) {
    c == ' ' || '\t' <= c <= '\r'
  }

  /** What atoi reads: spaces and one sign may come before the digits. */
  function Atoi(s: string): (n: int) {
    if s == "" then 0
    else if IsSpace(s[0]) then Atoi(s[1..])
    else
      var number: int := LeadingNumber(if IsSign(s[0]) then s[1..] else s);
      if s[0] == '-' then -number else number
  }

  predicate IsSign(c: char) { c == '-' || c == '+' }

  /** wl_message_get_since: the version is 1 if the signature does not say. */
  method GetSince(signature: string) returns (since: int)
    ensures since == if Atoi(signature) == 0 then 1 else Atoi(signature)
  {
    var at: nat := 0;
    assert signature[0..] == signature;
    while at < |signature| && IsSpace(signature[at])
      invariant at <= |signature| && Atoi(signature[at..]) == Atoi(signature)
    {
      assert signature[at..][1..] == signature[at + 1..];
      at := at + 1;
    }
    var minus := at < |signature| && signature[at] == '-';
    if at < |signature| && IsSign(signature[at]) {
      assert signature[at..][1..] == signature[at + 1..];
      at := at + 1;
    }
    var number: int := ReadDigits(signature, at);
    since := if minus then -number else number;
    if since == 0 {
      since := 1;
    }
  }

  method ReadDigits(s: string, start: nat) returns (number: nat)
    requires start <= |s|
    ensures number == LeadingNumber(s[start..])
  {
    number := 0;
    var at := start;
    while at < |s| && IsDigit(s[at])
      invariant start <= at <= |s| && LeadingNumber(s[at..], number) == LeadingNumber(s[start..])
    {
      assert s[at..][1..] == s[at + 1..];
      number := 10 * number + (s[at] as int - '0' as int);
      at := at + 1;
    }
  }
}
