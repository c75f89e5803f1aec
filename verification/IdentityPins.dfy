/**
 * What the identity file stands for: a list of receivers with the key each
 * first proved, oldest first, at most 256 of them.  Every sequence of checks
 * and forgets on the file answers as that list does, and leaves a file that
 * spells it out.
 */
module IdentityPins {
  import opened Common
  import opened Identity
  import opened IdentityStore

  datatype Pin = Pin(receiver: bytes, key: bytes)

  function KeyOf(pins: seq<Pin>, receiver: bytes): Option<bytes> {
    if pins == [] then None
    else if pins[0].receiver == receiver then Some(pins[0].key)
    else KeyOf(pins[1..], receiver)
  }

  function Unpinned(pins: seq<Pin>, receiver: bytes): seq<Pin> {
    if pins == [] then []
    else (if pins[0].receiver == receiver then [] else [pins[0]]) + Unpinned(pins[1..], receiver)
  }

  /** A first key is pinned, the oldest making room; nothing else is, and only forgetting takes a pin away. */
  function PinsAfter(pins: seq<Pin>, call: Call): seq<Pin> {
    match call
    case Forget(receiver) => Unpinned(pins, receiver)
    case Check(receiver, key) =>
      if KeyOf(pins, receiver).Some? || key.None? then pins
      else (if |pins| == 256 then pins[1..] else pins) + [Pin(receiver, key.value)]
  }

  /** An unknown receiver is accepted, with a key or without; a known one with its own key only. */
  function AnswerFrom(pins: seq<Pin>, call: Call): Answer {
    match call
    case Forget(_) => Accepted
    case Check(receiver, key) =>
      var known := KeyOf(pins, receiver);
      if known.None? || known == key then Accepted else Denied
  }

  function PinsOf(run: seq<Call>): seq<Pin> {
    if run == [] then [] else PinsAfter(PinsOf(run[..|run| - 1]), run[|run| - 1])
  }

  function Spelled(pins: seq<Pin>): seq<Entry> {
    seq(|pins|, i requires 0 <= i < |pins| => Entry(Hex(pins[i].receiver), Hex(pins[i].key)))
  }

  lemma {:induction false} FindSpelled(pins: seq<Pin>, receiver: bytes)
    ensures var found := Find(Spelled(pins), Hex(receiver));
            match KeyOf(pins, receiver)
            case None => found == None
            case Some(key) => found == Some(Hex(key))
  {
    if pins != [] {
      assert Spelled(pins)[1..] == Spelled(pins[1..]);
      if Hex(pins[0].receiver) == Hex(receiver) {
        HexInjective(pins[0].receiver, receiver);
      } else {
        FindSpelled(pins[1..], receiver);
      }
    }
  }

  lemma {:induction false} WithoutSpelled(pins: seq<Pin>, receiver: bytes)
    ensures Without(Spelled(pins), Hex(receiver)) == Spelled(Unpinned(pins, receiver))
  {
    if pins != [] {
      WithoutSpelled(pins[1..], receiver);
      assert Spelled(pins)[1..] == Spelled(pins[1..]);
      if Hex(pins[0].receiver) == Hex(receiver) {
        HexInjective(pins[0].receiver, receiver);
        assert Unpinned(pins, receiver) == Unpinned(pins[1..], receiver);
      } else {
        assert Spelled(Unpinned(pins, receiver)) == [Spelled(pins)[0]] + Spelled(Unpinned(pins[1..], receiver));
      }
    }
  }

  /** A file that spells out the list. */
  ghost predicate Spells(t: string, pins: seq<Pin>) {
    Proper(t) && Entries(t) == Spelled(pins)
  }

  lemma JudgedByPins(t: string, pins: seq<Pin>, receiver: bytes, key: Option<bytes>)
    requires Spells(t, pins)
    ensures var v := Judge(t, receiver, key);
            match KeyOf(pins, receiver)
            case None => if key.None? then v == Unchanged else v.Remember?
            case Some(known) => v == if key == Some(known) then Unchanged else Refused
  {
    FindSpelled(pins, receiver);
    var known := KeyOf(pins, receiver);
    if known.Some? && key.Some? && Hex(known.value) == Hex(key.value) {
      HexInjective(known.value, key.value);
    }
  }

  /** One call on the file is that call on the list. */
  lemma CallOnPins(t: string, pins: seq<Pin>, call: Call)
    requires Spells(t, pins)
    ensures AnswerTo(t, call) == AnswerFrom(pins, call)
    ensures Spells(TextAfter(t, call), PinsAfter(pins, call))
    ensures PinsAfter(pins, call) == pins ==> TextAfter(t, call) == t
  {
    if call.Forget? {
      ForgetEntries(t, call.receiver);
      WithoutSpelled(pins, call.receiver);
    } else {
      JudgedByPins(t, pins, call.receiver, call.key);
      if FirstUse(t, call) {
        FirstUseEntries(t, call.receiver, call.key.value);
        assert PinsAfter(pins, call)[|PinsAfter(pins, call)| - 1] == Pin(call.receiver, call.key.value);
        assert Pushed(Entries(t), Entry(Hex(call.receiver), Hex(call.key.value))) == Spelled(PinsAfter(pins, call));
        NewIsNotThere(pins, call.receiver, call.key.value);
      }
    }
    if PinsAfter(pins, call) == pins {
      assert Entries(TextAfter(t, call)) == Entries(t);
    }
  }

  /** A list with a new pin behind it is another list. */
  lemma NewIsNotThere(pins: seq<Pin>, receiver: bytes, key: bytes)
    requires KeyOf(pins, receiver).None?
    ensures (if |pins| == 256 then pins[1..] else pins) + [Pin(receiver, key)] != pins
  {
    NotAmong(pins, receiver);
  }

  lemma {:induction false} NotAmong(pins: seq<Pin>, receiver: bytes)
    ensures KeyOf(pins, receiver).None? <==> forall p | p in pins :: p.receiver != receiver
  {
    if pins != [] {
      NotAmong(pins[1..], receiver);
      assert forall p | p in pins :: p == pins[0] || p in pins[1..];
    }
  }

  /**
   * Refinement, over every sequence of checks and forgets from the empty file:
   * each answer is that of the list of pins, and the file spells that list out.
   */
  lemma {:induction false} FileIsPins(run: seq<Call>)
    ensures Spells(TextOf("", run), PinsOf(run))
    ensures forall call :: AnswerTo(TextOf("", run), call) == AnswerFrom(PinsOf(run), call)
    ensures forall call :: PinsAfter(PinsOf(run), call) == PinsOf(run) ==> TextAfter(TextOf("", run), call) == TextOf("", run)
  {
    if run == [] {
      RenderedProper([]);
    } else {
      FileIsPins(run[..|run| - 1]);
      CallOnPins(TextOf("", run[..|run| - 1]), PinsOf(run[..|run| - 1]), run[|run| - 1]);
    }
    forall call
      ensures AnswerTo(TextOf("", run), call) == AnswerFrom(PinsOf(run), call)
      ensures PinsAfter(PinsOf(run), call) == PinsOf(run) ==> TextAfter(TextOf("", run), call) == TextOf("", run)
    {
      CallOnPins(TextOf("", run), PinsOf(run), call);
    }
  }
}
