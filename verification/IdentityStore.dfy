/**
 * What the identity file means over time: sequentially, a bounded map from
 * receivers to the keys they first proved; concurrently, the same, because
 * every call takes effect at one atomic point although checks read without
 * the lock.
 */
module IdentityStore {
  import opened Common
  import opened Identity
  import opened Text

  datatype Call =
    | Check(receiver: bytes, key: Option<bytes>)
    | Forget(receiver: bytes)

  datatype Answer = Accepted | Denied | Failed

  function AnswerTo(t: string, call: Call): Answer {
    if call.Check? && Judge(t, call.receiver, call.key).Refused? then Denied else Accepted
  }

  function TextAfter(t: string, call: Call): string {
    match call
    case Check(receiver, key) =>
      var v := Judge(t, receiver, key);
      if v.Remember? then v.contents else t
    case Forget(receiver) => Forgotten(t, receiver)
  }

  predicate FirstUse(t: string, call: Call) {
    call.Check? && Judge(t, call.receiver, call.key).Remember?
  }

  // ------------------------------------------------------------ sequential

  ghost predicate UniqueNames(es: seq<Entry>) {
    forall i, j | 0 <= i < j < |es| :: es[i].name != es[j].name
  }

  /** The text is a rendered, bounded list of entries with different names. */
  ghost predicate Proper(t: string) {
    var es := Entries(t);
    t == Render(es) && AllHex(es) && UniqueNames(es) && |es| <= MAX_REMEMBERED
  }

  lemma RenderedProper(es: seq<Entry>)
    requires AllHex(es) && UniqueNames(es) && |es| <= MAX_REMEMBERED
    ensures Entries(Render(es)) == es && Proper(Render(es))
  {
    EntriesRoundTrip(es);
  }

  lemma {:induction false} FindNone(es: seq<Entry>, name: string)
    ensures Find(es, name).None? <==> forall e | e in es :: e.name != name
  {
    if es != [] {
      FindNone(es[1..], name);
      assert forall e | e in es :: e == es[0] || e in es[1..];
    }
  }

  lemma {:induction false} WithoutUnique(es: seq<Entry>, name: string)
    requires UniqueNames(es) && AllHex(es)
    ensures UniqueNames(Without(es, name))
  {
    if es != [] {
      WithoutUnique(es[1..], name);
      WithoutHex(es[1..], name);
      var rest := Without(es[1..], name);
      forall j | 0 <= j < |rest|
        ensures rest[j].name != es[0].name
      {
        assert rest[j] in es[1..];
      }
    }
  }

  /** The entries after dropping the oldest of a full store and appending one. */
  function Pushed(es: seq<Entry>, added: Entry): seq<Entry> {
    (if |es| == MAX_REMEMBERED then es[1..] else es) + [added]
  }

  /** What survives of a full store keeps unique hex names, and a new name stays new. */
  lemma TailProper(es: seq<Entry>, name: string)
    requires es != [] && AllHex(es) && UniqueNames(es) && Find(es, name).None?
    ensures AllHex(es[1..]) && UniqueNames(es[1..]) && Find(es[1..], name).None?
  {
  }

  lemma AppendProper(es: seq<Entry>, added: Entry)
    requires AllHex(es) && UniqueNames(es) && IsHex(added.name) && IsHex(added.key) && Find(es, added.name).None?
    ensures AllHex(es + [added]) && UniqueNames(es + [added])
  {
    FindNone(es, added.name);
  }

  lemma PushedWellFormed(es: seq<Entry>, added: Entry)
    requires AllHex(es) && UniqueNames(es) && |es| <= MAX_REMEMBERED
    requires IsHex(added.name) && IsHex(added.key) && Find(es, added.name).None?
    ensures AllHex(Pushed(es, added)) && UniqueNames(Pushed(es, added)) && |Pushed(es, added)| <= MAX_REMEMBERED
  {
    if |es| == MAX_REMEMBERED {
      TailProper(es, added.name);
      AppendProper(es[1..], added);
    } else {
      AppendProper(es, added);
    }
  }

  lemma NewestIsPushed(es: seq<Entry>, added: Entry)
    requires |es| <= MAX_REMEMBERED
    ensures Newest(es + [added]) == Pushed(es, added)
  {
  }

  lemma PushedFinds(es: seq<Entry>, added: Entry)
    requires AllHex(es) && UniqueNames(es) && Find(es, added.name).None?
    ensures Find(Pushed(es, added), added.name) == Some(added.key) && Age(Pushed(es, added), added.name) == 1
  {
    if |es| == MAX_REMEMBERED {
      TailProper(es, added.name);
      AppendOwn(es[1..], added);
    } else {
      AppendOwn(es, added);
    }
  }

  /** Remembering appends the receiver, after dropping the oldest entry of a full store. */
  lemma FirstUseEntries(t: string, receiver: bytes, key: bytes)
    requires Proper(t) && FirstUse(t, Check(receiver, Some(key)))
    ensures Entries(TextAfter(t, Check(receiver, Some(key)))) == Pushed(Entries(t), Entry(Hex(receiver), Hex(key)))
    ensures Proper(TextAfter(t, Check(receiver, Some(key))))
  {
    HexIsHex(receiver);
    HexIsHex(key);
    var added := Entry(Hex(receiver), Hex(key));
    NewestIsPushed(Entries(t), added);
    PushedWellFormed(Entries(t), added);
    RenderedProper(Pushed(Entries(t), added));
  }

  /** Forgetting removes that receiver's entry and no other. */
  lemma ForgetEntries(t: string, receiver: bytes)
    requires Proper(t)
    ensures Entries(TextAfter(t, Forget(receiver))) == Without(Entries(t), Hex(receiver))
    ensures Proper(TextAfter(t, Forget(receiver)))
  {
    var es, name := Entries(t), Hex(receiver);
    KeptIsWithout(es, name);
    WithoutHex(es, name);
    WithoutUnique(es, name);
    RenderedProper(Without(es, name));
    if |Kept(Lines(t), name)| == |t| {
      KeptLength(t, name);
      NoLineGoes(es, name);
    }
  }

  /** When no line is dropped the entries are all kept. */
  lemma {:induction false} NoLineGoes(es: seq<Entry>, name: string)
    requires AllHex(es) && !SomeLineGoes(Lines(Render(es)), name)
    ensures Without(es, name) == es
    decreases |es|
  {
    if es != [] {
      RenderFront(es);
      LineOf(es[0]);
      FirstEntryLine(es[0], Render(es[1..]));
      var lines := Lines(Render(es));
      assert Keeps(lines[0], name);
      assert lines[1..] == Lines(Render(es[1..]));
      NoLineGoes(es[1..], name);
    }
  }

  /** Names stay unique and the bound is kept by every call. */
  lemma CallKeepsProper(t: string, call: Call)
    requires Proper(t)
    ensures Proper(TextAfter(t, call))
  {
    if FirstUse(t, call) {
      FirstUseEntries(t, call.receiver, call.key.value);
    } else if call.Forget? {
      ForgetEntries(t, call.receiver);
    }
  }

  function TextOf(t: string, run: seq<Call>): string {
    if run == [] then t else TextAfter(TextOf(t, run[..|run| - 1]), run[|run| - 1])
  }

  lemma {:induction false} AlwaysProper(t: string, run: seq<Call>)
    requires Proper(t)
    ensures Proper(TextOf(t, run))
  {
    if run != [] {
      AlwaysProper(t, run[..|run| - 1]);
      CallKeepsProper(TextOf(t, run[..|run| - 1]), run[|run| - 1]);
    }
  }

  function FirstUses(t: string, run: seq<Call>): nat {
    if run == [] then 0
    else
      var front := run[..|run| - 1];
      FirstUses(t, front) + if FirstUse(TextOf(t, front), run[|run| - 1]) then 1 else 0
  }

  /** How many entries there are from the one of `name` to the newest. */
  function Age(es: seq<Entry>, name: string): nat {
    if es == [] then 0
    else if es[0].name == name then |es|
    else Age(es[1..], name)
  }

  lemma {:induction false} WithoutOther(es: seq<Entry>, name: string, other: string)
    requires name != other && AllHex(es)
    ensures Find(Without(es, other), name) == Find(es, name)
    ensures Age(Without(es, other), name) <= Age(es, name)
  {
    if es != [] {
      WithoutOther(es[1..], name, other);
      WithoutHex(es[1..], other);
      if es[0].name != other {
        assert Without(es, other)[1..] == Without(es[1..], other);
      } else {
        assert Without(es, other) == Without(es[1..], other);
      }
    }
  }

  lemma {:induction false} AppendOther(es: seq<Entry>, name: string, added: Entry)
    requires Find(es, name).Some?
    ensures Find(es + [added], name) == Find(es, name)
    ensures Age(es + [added], name) == Age(es, name) + 1
  {
    if es[0].name != name {
      AppendOther(es[1..], name, added);
      assert (es + [added])[1..] == es[1..] + [added];
    }
  }

  lemma {:induction false} AppendOwn(es: seq<Entry>, added: Entry)
    requires Find(es, added.name).None?
    ensures Find(es + [added], added.name) == Some(added.key)
    ensures Age(es + [added], added.name) == 1
  {
    if es != [] {
      AppendOwn(es[1..], added);
      assert (es + [added])[1..] == es[1..] + [added];
    } else {
      assert es + [added] == [added];
    }
  }

  lemma {:induction false} AgeBound(es: seq<Entry>, name: string)
    requires Find(es, name).Some?
    ensures 1 <= Age(es, name) <= |es|
    ensures Age(es, name) < |es| ==> Find(es[1..], name) == Find(es, name) && Age(es[1..], name) == Age(es, name)
  {
    if es[0].name != name {
      AgeBound(es[1..], name);
    }
  }

  /** One call leaves a known key in place and ages it by at most a first use. */
  lemma KeyStays(t: string, name: string, call: Call)
    requires Proper(t) && Find(Entries(t), name).Some?
    requires Age(Entries(t), name) + (if FirstUse(t, call) then 1 else 0) <= MAX_REMEMBERED
    requires call.Forget? ==> Hex(call.receiver) != name
    ensures Find(Entries(TextAfter(t, call)), name) == Find(Entries(t), name)
    ensures Age(Entries(TextAfter(t, call)), name) <= Age(Entries(t), name) + if FirstUse(t, call) then 1 else 0
  {
    var es := Entries(t);
    if FirstUse(t, call) {
      FirstUseEntries(t, call.receiver, call.key.value);
      AgeBound(es, name);
      var kept := if |es| == MAX_REMEMBERED then es[1..] else es;
      AppendOther(kept, name, Entry(Hex(call.receiver), Hex(call.key.value)));
    } else if call.Forget? {
      ForgetEntries(t, call.receiver);
      WithoutOther(es, name, Hex(call.receiver));
    }
  }

  lemma {:induction false} KeyStaysOver(t: string, name: string, run: seq<Call>)
    requires Proper(t) && Find(Entries(t), name).Some?
    requires Age(Entries(t), name) + FirstUses(t, run) <= MAX_REMEMBERED
    requires forall c | c in run && c.Forget? :: Hex(c.receiver) != name
    ensures Find(Entries(TextOf(t, run)), name) == Find(Entries(t), name)
    ensures Age(Entries(TextOf(t, run)), name) <= Age(Entries(t), name) + FirstUses(t, run)
  {
    if run != [] {
      var front := run[..|run| - 1];
      KeyStaysOver(t, name, front);
      AlwaysProper(t, front);
      KeyStays(TextOf(t, front), name, run[|run| - 1]);
    }
  }

  /** Right after a first use the receiver is there, with its key, as the newest. */
  lemma JustRemembered(t: string, receiver: bytes, key: bytes)
    requires Proper(t) && FirstUse(t, Check(receiver, Some(key)))
    ensures var t' := TextAfter(t, Check(receiver, Some(key)));
            && Proper(t') && Find(Entries(t'), Hex(receiver)) == Some(Hex(key)) && Age(Entries(t'), Hex(receiver)) == 1
  {
    FirstUseEntries(t, receiver, key);
    PushedFinds(Entries(t), Entry(Hex(receiver), Hex(key)));
  }

  /** A store reached from the empty one. */
  lemma ReachedProper(past: seq<Call>)
    ensures Proper(TextOf("", past))
  {
    RenderedProper([]);
    AlwaysProper("", past);
  }

  lemma KnownAnswer(t: string, receiver: bytes, key: bytes, proved: Option<bytes>)
    requires Find(Entries(t), Hex(receiver)) == Some(Hex(key))
    ensures AnswerTo(t, Check(receiver, proved)) == (if proved == Some(key) then Accepted else Denied)
    ensures TextAfter(t, Check(receiver, proved)) == t
  {
    if proved.Some? && Hex(proved.value) == Hex(key) {
      HexInjective(proved.value, key);
    }
  }

  /**
   * Trust on first use: once a receiver proved a key for the first time, it is
   * accepted with exactly that key, through any calls that do not forget it
   * and among which at most 255 other receivers are new.
   */
  lemma FirstKeyPinned(past: seq<Call>, receiver: bytes, key: bytes, later: seq<Call>, proved: Option<bytes>)
    requires FirstUse(TextOf("", past), Check(receiver, Some(key)))
    requires FirstUses(TextAfter(TextOf("", past), Check(receiver, Some(key))), later) <= MAX_REMEMBERED - 1
    requires forall c | c in later && c.Forget? :: c.receiver != receiver
    ensures var t := TextOf(TextAfter(TextOf("", past), Check(receiver, Some(key))), later);
            && AnswerTo(t, Check(receiver, proved)) == (if proved == Some(key) then Accepted else Denied)
            && TextAfter(t, Check(receiver, proved)) == t
  {
    ReachedProper(past);
    JustRemembered(TextOf("", past), receiver, key);
    forall c | c in later && c.Forget?
      ensures Hex(c.receiver) != Hex(receiver)
    {
      if Hex(c.receiver) == Hex(receiver) {
        HexInjective(c.receiver, receiver);
      }
    }
    var t := TextAfter(TextOf("", past), Check(receiver, Some(key)));
    KeyStaysOver(t, Hex(receiver), later);
    KnownAnswer(TextOf(t, later), receiver, key, proved);
  }

  /** After forgetting, that receiver is new again ... */
  lemma ForgottenIsNew(past: seq<Call>, receiver: bytes, key: bytes)
    ensures FirstUse(TextAfter(TextOf("", past), Forget(receiver)), Check(receiver, Some(key)))
  {
    var t := TextOf("", past);
    ReachedProper(past);
    ForgetEntries(t, receiver);
    WithoutHex(Entries(t), Hex(receiver));
    FindNone(Without(Entries(t), Hex(receiver)), Hex(receiver));
  }

  /** ... and every other receiver keeps the key it had, or stays unknown. */
  lemma ForgetsNoOther(past: seq<Call>, receiver: bytes, other: bytes)
    requires other != receiver
    ensures var t := TextOf("", past);
            Find(Entries(TextAfter(t, Forget(receiver))), Hex(other)) == Find(Entries(t), Hex(other))
  {
    var t := TextOf("", past);
    ReachedProper(past);
    ForgetEntries(t, receiver);
    if Hex(other) == Hex(receiver) {
      HexInjective(other, receiver);
    }
    WithoutOther(Entries(t), Hex(other), Hex(receiver));
  }

  // ------------------------------------------------------------ concurrent

  type Caller(==) = nat

  /** Where a call stands; the middle ones hold the lock. */
  datatype Pc =
    | Begun(call: Call)
    | Waiting(call: Call)
    | Locked(call: Call)
    | Writing(call: Call, contents: string)
    | Leaving(call: Call, answer: Answer)
    | Done(call: Call, answer: Answer)

  predicate HoldsLock(pc: Pc) {
    pc.Locked? || pc.Writing? || pc.Leaving?
  }

  datatype Effect = Effect(caller: Caller, call: Call, answer: Answer)

  /**
   * The file, the lock, every caller, and a log of the moments at which calls
   * took effect.  The log is bookkeeping of the model; no step looks at it.
   */
  datatype System = System(text: string, holder: Option<Caller>, pcs: map<Caller, Pc>, log: seq<Effect>)

  function At(s: System, c: Caller, pc: Pc): System {
    s.(pcs := s.pcs[c := pc])
  }

  function Take(s: System, c: Caller, pc: Pc, answer: Answer): System {
    At(s, c, pc).(log := s.log + [Effect(c, pc.call, answer)])
  }

  /** One step of caller `c`; `s'` is one of the states it may lead to. */
  ghost predicate Moves(s: System, c: Caller, s': System) {
    if c !in s.pcs then
      // A new call.
      exists call :: s' == At(s, c, Begun(call))
    else
      match s.pcs[c]
      case Begun(call) =>
        if call.Check? then
          // The read without the lock decides, unless there is something to remember; or it fails.
          || s' == Take(s, c, Done(call, Failed), Failed)
          || s' == (if FirstUse(s.text, call) then At(s, c, Waiting(call))
                    else Take(s, c, Done(call, AnswerTo(s.text, call)), AnswerTo(s.text, call)))
        else s' == At(s, c, Waiting(call))
      case Waiting(call) =>
        s.holder.None? && s' == At(s, c, Locked(call)).(holder := Some(c))
      case Locked(call) =>
        // The read under the lock decides again.
        || s' == Take(s, c, Leaving(call, Failed), Failed)
        || s' == (if TextAfter(s.text, call) == s.text && !FirstUse(s.text, call)
                  then Take(s, c, Leaving(call, AnswerTo(s.text, call)), AnswerTo(s.text, call))
                  else At(s, c, Writing(call, TextAfter(s.text, call))))
      case Writing(call, contents) =>
        // The file is replaced as a whole, or the write fails and leaves the old one.
        || s' == Take(s, c, Leaving(call, Failed), Failed)
        || s' == Take(s, c, Leaving(call, Accepted), Accepted).(text := contents)
      case Leaving(call, answer) =>
        s' == At(s, c, Done(call, answer)).(holder := None)
      case Done(call, answer) => false
  }

  /** The text left by the log's calls made one after another; a failed call leaves it alone. */
  function Replayed(t0: string, log: seq<Effect>): string {
    if log == [] then t0
    else
      var before, e := Replayed(t0, log[..|log| - 1]), log[|log| - 1];
      if e.answer == Failed then before else TextAfter(before, e.call)
  }

  /** Every call that did not fail got the answer it gets alone, at its place in the log. */
  ghost predicate Sequential(t0: string, log: seq<Effect>) {
    log == [] ||
    (var e := log[|log| - 1];
     && Sequential(t0, log[..|log| - 1])
     && (e.answer == Failed || e.answer == AnswerTo(Replayed(t0, log[..|log| - 1]), e.call)))
  }

  function EffectsOf(log: seq<Effect>, c: Caller): seq<Effect> {
    if log == [] then []
    else EffectsOf(log[..|log| - 1], c) + if log[|log| - 1].caller == c then [log[|log| - 1]] else []
  }

  /** What the log must hold of a caller: nothing before its effect, exactly its answer after. */
  ghost predicate Logged(log: seq<Effect>, c: Caller, pc: Pc) {
    EffectsOf(log, c) == match pc
                         case Leaving(call, answer) => [Effect(c, call, answer)]
                         case Done(call, answer) => [Effect(c, call, answer)]
                         case _ => []
  }

  /** Every caller is in the log exactly as far as it got. */
  ghost predicate AllLogged(s: System) {
    && (forall c | c in s.pcs :: Logged(s.log, c, s.pcs[c]))
    && (forall c | c !in s.pcs :: EffectsOf(s.log, c) == [])
  }

  /** One caller at a time, and what it is about to write still follows from the file as it is. */
  ghost predicate Exclusive(s: System) {
    && (forall c | c in s.pcs :: HoldsLock(s.pcs[c]) <==> s.holder == Some(c))
    && (s.holder.Some? ==> s.holder.value in s.pcs)
    && (forall c | c in s.pcs && s.pcs[c].Writing? ::
          s.pcs[c].contents == TextAfter(s.text, s.pcs[c].call) && AnswerTo(s.text, s.pcs[c].call) == Accepted)
  }

  ghost predicate Linear(t0: string, s: System) {
    Sequential(t0, s.log) && s.text == Replayed(t0, s.log) && AllLogged(s) && Exclusive(s)
  }

  lemma ReplayOne(t0: string, log: seq<Effect>, e: Effect)
    requires Sequential(t0, log)
    requires e.answer == Failed || e.answer == AnswerTo(Replayed(t0, log), e.call)
    ensures Sequential(t0, log + [e])
    ensures Replayed(t0, log + [e]) == if e.answer == Failed then Replayed(t0, log) else TextAfter(Replayed(t0, log), e.call)
  {
  }

  lemma TakeKeepsLogged(s: System, c: Caller, pc: Pc, answer: Answer)
    requires AllLogged(s) && c in s.pcs && EffectsOf(s.log, c) == []
    requires (pc.Leaving? || pc.Done?) && pc.answer == answer
    ensures AllLogged(Take(s, c, pc, answer))
  {
  }

  /** Only the holder of the lock changes the file, so nobody else is about to write what no longer follows from it. */
  lemma TakeKeepsExclusive(s: System, c: Caller, pc: Pc, text: string)
    requires Exclusive(s) && c in s.pcs && (pc.Leaving? || pc.Done?)
    requires HoldsLock(pc) <==> HoldsLock(s.pcs[c])
    requires text == s.text || HoldsLock(s.pcs[c])
    ensures Exclusive(At(s, c, pc).(text := text))
  {
  }

  /** A step at which a call takes effect extends the sequential history by that call. */
  lemma TakeKeepsLinear(t0: string, s: System, c: Caller, pc: Pc, answer: Answer, text: string)
    requires Linear(t0, s) && c in s.pcs && EffectsOf(s.log, c) == []
    requires (pc.Leaving? || pc.Done?) && pc.answer == answer
    requires HoldsLock(pc) <==> HoldsLock(s.pcs[c])
    requires answer == Failed || answer == AnswerTo(s.text, pc.call)
    requires text == if answer == Failed then s.text else TextAfter(s.text, pc.call)
    requires text == s.text || HoldsLock(s.pcs[c])
    ensures Linear(t0, Take(s, c, pc, answer).(text := text))
  {
    ReplayOne(t0, s.log, Effect(c, pc.call, answer));
    TakeKeepsLogged(s, c, pc, answer);
    TakeKeepsExclusive(s, c, pc, text);
  }

  /** The lock stays, is taken by a caller that then holds it, or is given back by its holder. */
  predicate LockPasses(s: System, c: Caller, pc: Pc, holder: Option<Caller>) {
    && (HoldsLock(pc) <==> holder == Some(c))
    && (holder == s.holder || (s.holder.None? && holder == Some(c)) || (s.holder == Some(c) && holder.None?))
  }

  lemma MoveKeepsExclusive(s: System, c: Caller, pc: Pc, holder: Option<Caller>)
    requires Exclusive(s) && LockPasses(s, c, pc, holder)
    requires pc.Writing? ==> pc.contents == TextAfter(s.text, pc.call) && AnswerTo(s.text, pc.call) == Accepted
    ensures Exclusive(At(s, c, pc).(holder := holder))
  {
  }

  /** Steps without effect: the caller moves on, the lock possibly with it. */
  lemma MoveKeepsLinear(t0: string, s: System, c: Caller, pc: Pc, holder: Option<Caller>)
    requires Linear(t0, s) && Logged(s.log, c, pc) && LockPasses(s, c, pc, holder)
    requires pc.Writing? ==> pc.contents == TextAfter(s.text, pc.call) && AnswerTo(s.text, pc.call) == Accepted
    ensures Linear(t0, At(s, c, pc).(holder := holder))
  {
    MoveKeepsExclusive(s, c, pc, holder);
  }

  lemma MovesKeepLinear(t0: string, s: System, c: Caller, s': System)
    requires Linear(t0, s) && Moves(s, c, s')
    ensures Linear(t0, s')
  {
    if c !in s.pcs {
      var call :| s' == At(s, c, Begun(call));
      MoveKeepsLinear(t0, s, c, Begun(call), s.holder);
    } else {
      assert Logged(s.log, c, s.pcs[c]);
      match s.pcs[c]
      case Begun(call) => BegunKeepsLinear(t0, s, c, s');
      case Waiting(call) => MoveKeepsLinear(t0, s, c, Locked(call), Some(c));
      case Locked(call) => LockedKeepsLinear(t0, s, c, s');
      case Writing(call, contents) =>
        if s' == Take(s, c, Leaving(call, Failed), Failed) {
          TakeKeepsLinear(t0, s, c, Leaving(call, Failed), Failed, s.text);
        } else {
          TakeKeepsLinear(t0, s, c, Leaving(call, Accepted), Accepted, contents);
        }
      case Leaving(call, answer) => MoveKeepsLinear(t0, s, c, Done(call, answer), None);
    }
  }

  lemma BegunKeepsLinear(t0: string, s: System, c: Caller, s': System)
    requires Linear(t0, s) && Moves(s, c, s') && c in s.pcs && s.pcs[c].Begun?
    ensures Linear(t0, s')
  {
    assert Logged(s.log, c, s.pcs[c]);
    var call := s.pcs[c].call;
    if s' == At(s, c, Waiting(call)) {
      MoveKeepsLinear(t0, s, c, Waiting(call), s.holder);
    } else if s' == Take(s, c, Done(call, Failed), Failed) {
      TakeKeepsLinear(t0, s, c, Done(call, Failed), Failed, s.text);
    } else {
      TakeKeepsLinear(t0, s, c, Done(call, AnswerTo(s.text, call)), AnswerTo(s.text, call), s.text);
    }
  }

  lemma LockedKeepsLinear(t0: string, s: System, c: Caller, s': System)
    requires Linear(t0, s) && Moves(s, c, s') && c in s.pcs && s.pcs[c].Locked?
    ensures Linear(t0, s')
  {
    assert Logged(s.log, c, s.pcs[c]);
    var call := s.pcs[c].call;
    if s' == Take(s, c, Leaving(call, Failed), Failed) {
      TakeKeepsLinear(t0, s, c, Leaving(call, Failed), Failed, s.text);
    } else if TextAfter(s.text, call) == s.text && !FirstUse(s.text, call) {
      TakeKeepsLinear(t0, s, c, Leaving(call, AnswerTo(s.text, call)), AnswerTo(s.text, call), s.text);
    } else {
      MoveKeepsLinear(t0, s, c, Writing(call, TextAfter(s.text, call)), s.holder);
    }
  }

  ghost predicate Next(s: System, s': System) {
    exists c: Caller :: Moves(s, c, s')
  }

  /** A run of any number of callers, interleaved in any way. */
  ghost predicate IsRun(t0: string, run: seq<System>) {
    && run != [] && run[0] == System(t0, None, map[], [])
    && forall i | 0 < i < |run| :: Next(run[i - 1], run[i])
  }

  lemma {:induction false} AlwaysLinear(t0: string, run: seq<System>, j: nat)
    requires IsRun(t0, run) && j < |run|
    ensures Linear(t0, run[j])
  {
    if j > 0 {
      AlwaysLinear(t0, run, j - 1);
      assert Next(run[j - 1], run[j]);
      var c: Caller :| Moves(run[j - 1], c, run[j]);
      MovesKeepLinear(t0, run[j - 1], c, run[j]);
    }
  }

  /**
   * Linearizability: in every interleaving, the calls that took effect, in the
   * order of their effects, give the answers and the file that the same calls
   * give when made one at a time; a finished call took effect exactly once,
   * with the answer it returned, and one that has not begun not at all.
   */
  lemma Linearizable(t0: string, run: seq<System>, j: nat)
    requires IsRun(t0, run) && j < |run|
    ensures Sequential(t0, run[j].log) && run[j].text == Replayed(t0, run[j].log)
    ensures forall c | c in run[j].pcs && run[j].pcs[c].Done? ::
              EffectsOf(run[j].log, c) == [Effect(c, run[j].pcs[c].call, run[j].pcs[c].answer)]
    ensures forall c | c !in run[j].pcs :: EffectsOf(run[j].log, c) == []
  {
    AlwaysLinear(t0, run, j);
    forall c | c in run[j].pcs && run[j].pcs[c].Done?
      ensures EffectsOf(run[j].log, c) == [Effect(c, run[j].pcs[c].call, run[j].pcs[c].answer)]
    {
      assert Logged(run[j].log, c, run[j].pcs[c]);
    }
  }

  lemma MoveGrowsLog(s: System, c: Caller, s': System)
    requires Moves(s, c, s')
    ensures s.log <= s'.log
  {
  }

  /** Effects are never reordered or taken back. */
  lemma {:induction false} LogGrows(t0: string, run: seq<System>, i: nat, j: nat)
    requires IsRun(t0, run) && i <= j < |run|
    ensures run[i].log <= run[j].log
    decreases j
  {
    if i < j {
      LogGrows(t0, run, i, j - 1);
      assert Next(run[j - 1], run[j]);
      var c: Caller :| Moves(run[j - 1], c, run[j]);
      MoveGrowsLog(run[j - 1], c, run[j]);
    }
  }

  lemma MoveKeepsDone(s: System, c: Caller, s': System, d: Caller)
    requires Moves(s, c, s') && d in s.pcs && s.pcs[d].Done?
    ensures d in s'.pcs && s'.pcs[d] == s.pcs[d]
  {
  }

  lemma {:induction false} DoneStays(t0: string, run: seq<System>, i: nat, j: nat, d: Caller)
    requires IsRun(t0, run) && i <= j < |run| && d in run[i].pcs && run[i].pcs[d].Done?
    ensures d in run[j].pcs && run[j].pcs[d] == run[i].pcs[d]
    decreases j
  {
    if i < j {
      DoneStays(t0, run, i, j - 1, d);
      assert Next(run[j - 1], run[j]);
      var c: Caller :| Moves(run[j - 1], c, run[j]);
      MoveKeepsDone(run[j - 1], c, run[j], d);
    }
  }

  /** A longer log adds effects of a caller exactly where it adds entries of that caller. */
  lemma {:induction false} NoMoreEffects(log: seq<Effect>, m: nat, c: Caller)
    requires m <= |log| && |EffectsOf(log, c)| == |EffectsOf(log[..m], c)|
    ensures forall k | m <= k < |log| :: log[k].caller != c
    decreases |log|
  {
    if m < |log| {
      var front := log[..|log| - 1];
      assert front[..m] == log[..m];
      EffectsGrow(front, m, c);
      NoMoreEffects(front, m, c);
    }
  }

  lemma {:induction false} EffectsGrow(log: seq<Effect>, m: nat, c: Caller)
    requires m <= |log|
    ensures |EffectsOf(log[..m], c)| <= |EffectsOf(log, c)|
    decreases |log|
  {
    if m < |log| {
      assert log[..|log| - 1][..m] == log[..m];
      EffectsGrow(log[..|log| - 1], m, c);
    } else {
      assert log[..m] == log;
    }
  }

  /** Real time: a call that ended before another began took effect before it, in every later log. */
  lemma RealTimeOrder(t0: string, run: seq<System>, i: nat, j: nat, c: Caller, d: Caller)
    requires IsRun(t0, run) && i <= j < |run|
    requires c in run[i].pcs && run[i].pcs[c].Done? && d !in run[i].pcs
    ensures forall a, b | 0 <= a < |run[j].log| && 0 <= b < |run[j].log|
              && run[j].log[a].caller == c && run[j].log[b].caller == d :: a < b
  {
    var early, late := run[i].log, run[j].log;
    Linearizable(t0, run, i);
    Linearizable(t0, run, j);
    LogGrows(t0, run, i, j);
    DoneStays(t0, run, i, j, c);
    assert late[..|early|] == early;
    NoMoreEffects(late, |early|, c);
    NoMoreEffects(early, 0, d);
    assert forall b | 0 <= b < |early| :: late[b] == early[b];
  }

  /** However calls interleave, no receiver ever has two keys and the file stays within its bound. */
  lemma {:induction false} ReplayedProper(log: seq<Effect>)
    ensures Proper(Replayed("", log))
  {
    if log == [] {
      RenderedProper([]);
    } else {
      ReplayedProper(log[..|log| - 1]);
      CallKeepsProper(Replayed("", log[..|log| - 1]), log[|log| - 1].call);
    }
  }

  lemma ConcurrentlyProper(run: seq<System>, j: nat)
    requires IsRun("", run) && j < |run|
    ensures Proper(run[j].text)
  {
    Linearizable("", run, j);
    ReplayedProper(run[j].log);
  }
}
