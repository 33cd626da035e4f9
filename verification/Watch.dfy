/**
  The watch stream: events are read from the target, restored, and written to the client. Beside
  the loop itself: what the client builds from the events it gets agrees with what it would get by
  listing.
 */
module Watch {
  import opened Text
  import opened Rules
  import opened Json
  import opened Arrays
  import opened Transforms
  import opened Excludes
  import opened Payload

  datatype Event = Event(kind: string, obj: Json)

  const ADDED := "ADDED"
  const MODIFIED := "MODIFIED"
  const DELETED := "DELETED"
  const ERROR := "ERROR"
  const BOOKMARK := "BOOKMARK"

  /** What transformWatchEvent returns: a new event, SkipItem, or another error. */
  datatype Transformed = Rewritten(event: Event) | Skipped | Failed

  type Transform = Event -> Transformed

  // ---------------------------------------------------------------- the loop

  /** What the decoder returns. */
  datatype Decoded = Got(event: Event) | NotAnEvent | DecodeError

  /**
    One turn of the loop as its surroundings decide it: what the decoder returns and how many
    bytes it read, whether the context is cancelled by then, whether the write to the client
    succeeds, and whether the stream was stopped from outside before the next turn.
   */
  datatype Turn = Turn(decoded: Decoded, bytes: nat, cancelled: bool, delivered: bool, stopped: bool)

  /** The events one turn delivers: skipped ones vanish, events that fail to transform pass as they are. */
  function Output(transform: Transform, turn: Turn): seq<Event> {
    if !turn.decoded.Got? || !turn.delivered then []
    else match transform(turn.decoded.event)
      case Rewritten(event) => [event]
      case Skipped => []
      case Failed => [turn.decoded.event]
  }

  /** A turn after which the loop returns without handling anything. */
  predicate Ends(turn: Turn) {
    turn.cancelled || turn.decoded.DecodeError?
  }

  predicate Last(turn: Turn) {
    Ends(turn) || turn.stopped
  }

  function Handled(transform: Transform, turn: Turn): seq<Event> {
    if Ends(turn) then [] else Output(transform, turn)
  }

  /** The turns the loop takes: up to the first that ends it. */
  function Taken(turns: seq<Turn>): seq<Turn> {
    if turns == [] then []
    else if Last(turns[0]) then [turns[0]]
    else [turns[0]] + Taken(turns[1..])
  }

  function Sent(transform: Transform, turns: seq<Turn>): seq<Event> {
    if turns == [] then []
    else Handled(transform, turns[0]) + if Last(turns[0]) then [] else Sent(transform, turns[1..])
  }

  function Bytes(turns: seq<Turn>): nat {
    if turns == [] then 0 else turns[0].bytes + Bytes(turns[1..])
  }

  predicate Returns(turns: seq<Turn>) {
    exists i | 0 <= i < |turns| :: Last(turns[i])
  }

  /** bytesCounter: what was read since the last reset. */
  class BytesCounter {
    var counter: nat

    constructor ()
      ensures counter == 0
    {
      counter := 0;
    }

    method Read(n: nat)
      modifies this
      ensures counter == old(counter) + n
    {
      counter := counter + n;
    }

    method Reset()
      modifies this
      ensures counter == 0
    {
      counter := 0;
    }
  }

  class StreamRewriter {
    const transform: Transform
    const bytesCounter: BytesCounter
    var dst: seq<Event>
    var done: bool
    ghost var closes: nat
    var fromTargetBytes: nat

    ghost predicate Valid()
      reads this
    {
      closes == if done then 1 else 0
    }

    constructor (transform: Transform)
      ensures Valid() && this.transform == transform && dst == [] && !done && fromTargetBytes == 0
      ensures fresh(bytesCounter) && bytesCounter.counter == 0
    {
      this.transform := transform;
      bytesCounter := new BytesCounter();
      dst, done, fromTargetBytes := [], false, 0;
      closes := 0;
    }

    /** Closing the done channel twice would panic; Stop looks first. */
    method Stop()
      requires Valid()
      modifies this
      ensures Valid() && done
      ensures dst == old(dst) && fromTargetBytes == old(fromTargetBytes)
    {
      if !done {
        done := true;
        closes := closes + 1;
      }
    }

    /** Handing one decoded event to the client. */
    method Handle(turn: Turn)
      modifies this`dst
      ensures dst == old(dst) + Output(transform, turn)
    {
      assert dst + [] == dst;
      if turn.decoded.Got? {
        match transform(turn.decoded.event) {
          case Skipped =>
          case Failed => if turn.delivered { dst := dst + [turn.decoded.event]; }
          case Rewritten(event) => if turn.delivered { dst := dst + [event]; }
        }
      }
    }

    /** The decoder reads; the bytes it read are accounted for and the counter starts over. */
    method Decode(turn: Turn)
      requires bytesCounter.counter == 0
      modifies this`fromTargetBytes, bytesCounter
      ensures fromTargetBytes == old(fromTargetBytes) + turn.bytes && bytesCounter.counter == 0
    {
      bytesCounter.Read(turn.bytes);
      fromTargetBytes := fromTargetBytes + bytesCounter.counter;
      bytesCounter.Reset();
    }

    /** One turn: decode, look at the context and at the decoder's error, handle, look at done. */
    method TakeTurn(turn: Turn) returns (last: bool)
      requires Valid() && !done && bytesCounter.counter == 0
      modifies this, bytesCounter
      ensures Valid() && last == done == Last(turn) && bytesCounter.counter == 0
      ensures dst == old(dst) + Handled(transform, turn)
      ensures fromTargetBytes == old(fromTargetBytes) + turn.bytes
    {
      Decode(turn);
      last := turn.cancelled || turn.decoded.DecodeError?;
      if !last {
        Handle(turn);
        last := turn.stopped;
      }
      if last { Stop(); }
    }

    /** The loop over a finite stretch of turns; when none of them ends it, it is still waiting for the decoder. */
    method Start(turns: seq<Turn>) returns (returned: bool)
      requires Valid() && !done && bytesCounter.counter == 0
      modifies this, bytesCounter
      ensures Valid() && (done <==> returned) && (returned <==> Returns(turns))
      ensures dst == old(dst) + Sent(transform, turns)
      ensures fromTargetBytes == old(fromTargetBytes) + Bytes(Taken(turns)) && bytesCounter.counter == 0
    {
      returned := false;
      var rest := turns;
      while rest != [] && !returned
        invariant Valid() && bytesCounter.counter == 0 && returned == done
        invariant dst + (if returned then [] else Sent(transform, rest)) == old(dst) + Sent(transform, turns)
        invariant fromTargetBytes + (if returned then 0 else Bytes(Taken(rest))) == old(fromTargetBytes) + Bytes(Taken(turns))
        invariant (returned || Returns(rest)) <==> Returns(turns)
        decreases |rest|
      {
        OneTurn(transform, dst, rest);
        returned := TakeTurn(rest[0]);
        rest := rest[1..];
      }
    }
  }

  lemma OneTurn(transform: Transform, sent: seq<Event>, turns: seq<Turn>)
    requires turns != []
    ensures sent + Sent(transform, turns)
            == (sent + Handled(transform, turns[0])) + if Last(turns[0]) then [] else Sent(transform, turns[1..])
    ensures Bytes(Taken(turns)) == turns[0].bytes + if Last(turns[0]) then 0 else Bytes(Taken(turns[1..]))
    ensures Returns(turns) <==> Last(turns[0]) || Returns(turns[1..])
  {
    Associates(sent, Handled(transform, turns[0]), if Last(turns[0]) then [] else Sent(transform, turns[1..]));
    OneTurnBytes(turns);
    OneTurnReturns(turns);
  }

  lemma Associates(a: seq<Event>, b: seq<Event>, c: seq<Event>)
    ensures a + (b + c) == (a + b) + c
  {
  }

  lemma OneTurnBytes(turns: seq<Turn>)
    requires turns != []
    ensures Bytes(Taken(turns)) == turns[0].bytes + if Last(turns[0]) then 0 else Bytes(Taken(turns[1..]))
  {
    var rest := if Last(turns[0]) then [] else Taken(turns[1..]);
    assert Taken(turns) == [turns[0]] + rest && ([turns[0]] + rest)[1..] == rest;
  }

  lemma OneTurnReturns(turns: seq<Turn>)
    requires turns != []
    ensures Returns(turns) <==> Last(turns[0]) || Returns(turns[1..])
  {
    if i :| 0 <= i < |turns| && Last(turns[i]) && !Last(turns[0]) {
      assert Last(turns[1..][i - 1]);
    }
    if i :| 0 <= i < |turns[1..]| && Last(turns[1..][i]) {
      assert Last(turns[i + 1]);
    }
  }
}
