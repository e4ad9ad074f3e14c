/** Interfaces and the payloads of their events, as far as ids and fds go: how a receiver
    reads the words of a message by the parameters its own interface names. */
module Interfaces {
  import opened Wrappers
  import opened Words
  import opened Signatures

  type Name = string

  /** A parameter of a message: a plain word; a string or an array, which is a length and
      some bytes; an fd; an object, of a certain interface if one is named; a new object. */
  datatype Param =
    | WordParam
    | BlockParam(text: bool, nullable: bool)
    | FdParam
    | ObjectParam(nullable: bool, wanted: Option<Name>)
    | NewParam(iface: Name)

  datatype Interface = Interface(name: Name, events: seq<seq<Param>>) {
    /** How many fds each event carries. */
    function FdCounts(): (n: seq<nat>)
      ensures |n| == |events| && forall i :: 0 <= i < |n| ==> n[i] == CountFds(events[i])
    {
      seq(|events|, i requires 0 <= i < |events| => CountFds(events[i]))
    }
  }

  /** The interfaces that the messages name. */
  type Types = Name -> Interface

  datatype NewObject = NewObject(id: nat, iface: Interface)

  /** An object argument with the interface that the message names for it. */
  datatype ObjectRef = ObjectRef(id: nat, iface: Option<Name>)

  datatype Payload = Payload(args: seq<ObjectRef>, created: seq<NewObject>)

  function CountFds(params: seq<Param>): (n: nat) {
    if params == [] then 0 else (if params[0].FdParam? then 1 else 0) + CountFds(params[1..])
  }

  /** The words that a string or array takes up, unless it does not fit, is NULL where it
      must not be, or is a string without its final NUL. */
  function BlockWords(text: bool, nullable: bool, words: seq<Word>): (n: Option<nat>)
    requires words != []
    ensures n.Some? ==> 1 <= n.value <= |words|
  {
    var length: nat := words[0];
    var count := (length + 3) / 4;
    if count > |words| - 1 then None
    else if text && length == 0 then if nullable then Some(1) else None
    else if text && WordBytes(words[1 + (length - 1) / 4])[(length - 1) % 4] != 0 then None
    else Some(1 + count)
  }

  /** The object arguments and new objects among the words, read by these parameters. */
  function ReadParams(types: Types, params: seq<Param>, words: seq<Word>): (p: Option<Payload>)
    decreases |params|
  {
    if params == [] then Some(Payload([], []))
    else
      var rest := params[1..];
      match params[0]
      case FdParam => ReadParams(types, rest, words)
      case WordParam => if words == [] then None else ReadParams(types, rest, words[1..])
      case BlockParam(text, nullable) =>
        if words == [] then None
        else
          (match BlockWords(text, nullable, words)
           case None => None
           case Some(n) => ReadParams(types, rest, words[n..]))
      case ObjectParam(nullable, wanted) =>
        if words == [] || (words[0] == 0 && !nullable) then None
        else WithArg(ObjectRef(words[0], wanted), ReadParams(types, rest, words[1..]))
      case NewParam(iface) =>
        if words == [] || words[0] == 0 then None
        else WithNew(NewObject(words[0], types(iface)), ReadParams(types, rest, words[1..]))
  }

  function WithArg(r: ObjectRef, p: Option<Payload>): Option<Payload> {
    if p.Some? then Some(p.value.(args := [r] + p.value.args)) else None
  }

  function WithNew(o: NewObject, p: Option<Payload>): Option<Payload> {
    if p.Some? then Some(p.value.(created := [o] + p.value.created)) else None
  }

  /** What a receiver makes of a message: those with more than 20 parameters are refused. */
  function ReadPayload(types: Types, params: seq<Param>, words: seq<Word>): (p: Option<Payload>) {
    if |params| > MAX_ARGS then None else ReadParams(types, params, words)
  }

  /** Interfaces are equal if their names are. */
  predicate Matches(iface: Interface, r: ObjectRef) {
    r.iface.Some? ==> iface.name == r.iface.value
  }
}
