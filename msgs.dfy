/**
 The message envelope exchanged between peers and the hub: the `Command`
 enumeration and the `Msg` record.
 */
module Msgs {

  /** A possibly absent value; stands for a nil-able pointer. */
  datatype Option<+T> = None | Some(value: T)

  /** A UUID: sixteen bytes. */
  type Uuid = s: seq<bv8> | |s| == 16
    witness [0, 0, 0, 0, 0, 0, 0, 0, 0, 0, 0, 0, 0, 0, 0, 0]

  /** The values of a `uint8`. */
  type Byte = x: int | 0 <= x < 256

  /** The tags 8..255: representable in a `Command`, but named by no constant. */
  type UnnamedTag = x: int | 8 <= x < 256 witness 8

  /** A command: one of the eight named constants, or an unnamed `uint8` tag. */
  datatype Command =
    | Data
    | Error
    | Subscribe
    | Publish
    | Unsubscribe
    | Produce
    | Consume
    | Leave
    | Unnamed(tag: UnnamedTag)

  /** The named constants in declaration order; a constant's tag is its index here. */
  const Named: seq<Command> :=
    [Data, Error, Subscribe, Publish, Unsubscribe, Produce, Consume, Leave]

  /** The `uint8` value of a command. */
  function ToTag(c: Command): (t: Byte)
    ensures c.Unnamed? <==> t >= |Named|
    ensures t < |Named| ==> Named[t] == c
    ensures c.Unnamed? ==> t == c.tag
  {
    match c
    case Data => 0
    case Error => 1
    case Subscribe => 2
    case Publish => 3
    case Unsubscribe => 4
    case Produce => 5
    case Consume => 6
    case Leave => 7
    case Unnamed(tag) => tag
  }

  /** The command a `uint8` value denotes; every value denotes one. */
  function FromTag(t: Byte): (c: Command)
    ensures ToTag(c) == t
    ensures c.Unnamed? <==> t >= |Named|
  {
    if t < |Named| then Named[t] else Unnamed(t)
  }

  /** Converting a command to its tag and back gives the same command. */
  lemma TagRoundTrip(c: Command)
    ensures FromTag(ToTag(c)) == c
  {
  }

  /** The envelope. `Id`, `Dest` and `Source` are optional; `Data[0]`
      names the group for the group commands. */
  datatype Msg = Msg(
    Id: Option<Uuid>,
    Dest: Option<Uuid>,
    Source: Option<Uuid>,
    Cmd: Command,
    Data: seq<string>)
}
