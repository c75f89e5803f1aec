/**
 * Mirroring pauses between the file pipeline and the renderer, and deciding
 * that a session is over, from three sources in any order: the poller of the
 * renderer's state, the watcher of the pipeline, and the person.
 *
 * The poller and the watcher are branches of one task, so each of their turns
 * is one step here.
 */
module Session {
  import opened Common

  const IDLE_POLLS_BEFORE_ENDING := 2

  datatype Answer = Playing | Paused | Transitioning | Idle | Error

  /** The poller's own variables. */
  datatype Poller = Poller(everPlayed: bool, idlePolls: nat, pausedByRenderer: bool)

  const FRESH_POLLER := Poller(false, 0, false)

  /** What a poll asks of the pipeline. */
  datatype Request = Nothing | Hold | Resume

  /** One turn of the poller, up to the request it makes. */
  datatype Turn = Turn(poller: Poller, request: Request, over: bool)

  /** The renderer is paused of its own accord, and the file can follow. */
  predicate TakesPause(p: Poller, a: Answer, pausedHere: bool, follows: bool) {
    a.Paused? && follows && p.everPlayed && !pausedHere
  }

  /** Answers that show the session alive, or held by a pause known here. */
  predicate Resets(p: Poller, a: Answer, pausedHere: bool, follows: bool) {
    a.Playing? || TakesPause(p, a, pausedHere, follows) || a.Transitioning? || (a.Paused? && pausedHere)
  }

  /** Answers that count towards the end: errors always, silence only once it played. */
  predicate Counts(p: Poller, a: Answer, pausedHere: bool, follows: bool) {
    !Resets(p, a, pausedHere, follows) && (a.Error? || p.everPlayed)
  }

  function Polled(p: Poller, a: Answer, pausedHere: bool, follows: bool): Turn {
    if a.Playing? then Turn(Poller(true, 0, false), if p.pausedByRenderer then Resume else Nothing, false)
    else if TakesPause(p, a, pausedHere, follows) then Turn(p.(idlePolls := 0, pausedByRenderer := true), Hold, false)
    else if Resets(p, a, pausedHere, follows) then Turn(p.(idlePolls := 0), Nothing, false)
    else if Counts(p, a, pausedHere, follows) then
      Turn(p.(idlePolls := p.idlePolls + 1), Nothing, p.idlePolls + 1 >= IDLE_POLLS_BEFORE_ENDING)
    else Turn(p, Nothing, false)
  }

  /** `target`: the pipeline's own state or where it is going, paused or not; `pausedHere`: what the renderer knows of it. */
  datatype State = State(poller: Poller, pausedHere: bool, target: bool, over: bool)

  const START := State(FRESH_POLLER, false, false, false)

  datatype Event =
    | User(pause: bool)
    | Tick(ready: bool)
    | Poll(answer: Answer, sets: bool)

  /** A poll's turn on the shared state; `sets` is whether the pipeline obeys. */
  function AfterPoll(s: State, a: Answer, follows: bool, sets: bool): State {
    var turn := Polled(s.poller, a, s.pausedHere, follows);
    match turn.request
    case Nothing => s.(poller := turn.poller, over := turn.over)
    case Hold => s.(poller := turn.poller, pausedHere := true, target := if sets then true else s.target)
    case Resume => s.(poller := turn.poller, pausedHere := false, target := if sets then false else s.target)
  }

  /** The watcher passes a pause or resume on when it is ready and sees one the renderer does not know of. */
  predicate Tells(s: State, e: Event, follows: bool) {
    e.Tick? && e.ready && follows && !s.over && s.target != s.pausedHere
  }

  function After(s: State, e: Event, follows: bool): State {
    if s.over then s
    else
      match e
      case User(pause) => s.(target := pause)
      case Tick(_) => if Tells(s, e, follows) then s.(pausedHere := s.target) else s
      case Poll(answer, sets) => AfterPoll(s, answer, follows, sets)
  }

  class PauseMirror {
    const follows: bool
    var everPlayed: bool
    var idlePolls: nat
    var pausedByRenderer: bool
    var pausedHere: bool
    var target: bool
    var over: bool

    function View(): State
      reads this
    {
      State(Poller(everPlayed, idlePolls, pausedByRenderer), pausedHere, target, over)
    }

    constructor (follows: bool)
      ensures View() == START && this.follows == follows
    {
      this.follows := follows;
      everPlayed, idlePolls, pausedByRenderer := false, 0, false;
      pausedHere, target, over := false, false, false;
    }

    /** One round of `until_renderer_stops`. */
    method OnAnswer(answer: Answer, sets: bool)
      requires !over
      modifies this
      ensures View() == AfterPoll(old(View()), answer, follows, sets)
    {
      match answer {
        case Playing =>
          everPlayed := true;
          idlePolls := 0;
          if pausedByRenderer {
            pausedByRenderer := false;
            pausedHere := false;
            if sets {
              target := false;
            }
          }
          return;
        case Paused =>
          if follows && everPlayed && !pausedHere {
            pausedByRenderer := true;
            pausedHere := true;
            if sets {
              target := true;
            }
            idlePolls := 0;
            return;
          }
          if pausedHere {
            idlePolls := 0;
            return;
          }
          if !everPlayed {
            return;
          }
        case Transitioning =>
          idlePolls := 0;
          return;
        case Idle =>
          if !everPlayed {
            return;
          }
        case Error =>
      }
      idlePolls := idlePolls + 1;
      if idlePolls >= IDLE_POLLS_BEFORE_ENDING {
        over := true;
      }
    }

    /** One tick of the pause watcher; the answer is what the renderer is told. */
    method OnTick(ready: bool) returns (told: Option<bool>)
      requires !over
      modifies this`pausedHere
      ensures View() == After(old(View()), Tick(ready), follows)
      ensures told == if Tells(old(View()), Tick(ready), follows) then Some(target) else None
    {
      told := None;
      if follows && ready && target != pausedHere {
        pausedHere := target;
        told := Some(target);
      }
    }
  }

  // ------------------------------------------------------------------- echo

  function StateAfter(run: seq<Event>, s: State, follows: bool): State
    decreases |run|
  {
    if run == [] then s else StateAfter(run[1..], After(s, run[0], follows), follows)
  }

  /** How often the renderer is told something over a run. */
  function Messages(run: seq<Event>, s: State, follows: bool): nat
    decreases |run|
  {
    if run == [] then 0
    else (if Tells(s, run[0], follows) then 1 else 0) + Messages(run[1..], After(s, run[0], follows), follows)
  }

  function UserActions(run: seq<Event>): nat {
    if run == [] then 0 else (if run[0].User? then 1 else 0) + UserActions(run[1..])
  }

  ghost predicate PipelineObeys(run: seq<Event>) {
    forall e | e in run && e.Poll? :: e.sets
  }

  predicate InSync(s: State) {
    s.pausedHere == s.target
  }

  /** A pause or resume taken from the renderer leaves nothing to pass back exactly when the pipeline obeys it, or was there already. */
  lemma TakenLeavesSync(s: State, a: Answer, follows: bool, sets: bool)
    requires Polled(s.poller, a, s.pausedHere, follows).request != Nothing
    ensures var s' := AfterPoll(s, a, follows, sets);
            InSync(s') <==> sets || s.target == Polled(s.poller, a, s.pausedHere, follows).request.Hold?
  {
  }

  /**
   * No echo: with the pipeline obeying, every message to the renderer answers
   * an action of the person.  Over any interleaving there are no more messages
   * than actions, one more if the state was out of step to begin with; and from
   * a state in step, without actions, there is none.
   */
  lemma {:induction false} NoEcho(run: seq<Event>, s: State, follows: bool)
    requires PipelineObeys(run)
    ensures Messages(run, s, follows) <= UserActions(run) + if InSync(s) then 0 else 1
    ensures UserActions(run) == 0 && InSync(s) ==> InSync(StateAfter(run, s, follows))
    decreases |run|
  {
    if run != [] {
      var e := run[0];
      assert e in run;
      NoEcho(run[1..], After(s, e, follows), follows);
      if e.Poll? && !s.over && Polled(s.poller, e.answer, s.pausedHere, follows).request != Nothing {
        TakenLeavesSync(s, e.answer, follows, e.sets);
      }
    }
  }

  /** And the pipeline's obedience is needed: a refused hold comes back at the renderer as a resume. */
  lemma RefusedHoldEchoes(s: State)
    requires !s.over && s.poller.everPlayed && !s.pausedHere && !s.target
    ensures Messages([Poll(Paused, false), Tick(true)], s, true) == 1
  {
  }

  /** What the person does reaches the renderer at the next turn of the watcher, once, unless it knows already. */
  lemma ActionPassedOn(s: State, pause: bool)
    requires !s.over
    ensures var acted := After(s, User(pause), true);
            && Messages([User(pause), Tick(true)], s, true) == (if s.pausedHere == pause then 0 else 1)
            && acted.target == pause && After(acted, Tick(true), true) == acted.(pausedHere := pause)
  {
    assert [User(pause), Tick(true)][1..] == [Tick(true)] && [Tick(true)][1..] == [];
  }

  // ----------------------------------------------------------------- resume

  /** The state before event `k` of a run. */
  function At(run: seq<Event>, k: nat, follows: bool): State
    requires k <= |run|
  {
    StateAfter(run[..k], START, follows)
  }

  lemma {:induction false} ThenEvent(run: seq<Event>, e: Event, s: State, follows: bool)
    ensures StateAfter(run + [e], s, follows) == After(StateAfter(run, s, follows), e, follows)
    decreases |run|
  {
    if run != [] {
      ThenEvent(run[1..], e, After(s, run[0], follows), follows);
      assert (run + [e])[1..] == run[1..] + [e];
    }
  }

  lemma AtNext(run: seq<Event>, k: nat, follows: bool)
    requires k < |run|
    ensures At(run, k + 1, follows) == After(At(run, k, follows), run[k], follows)
  {
    assert run[..k + 1] == run[..k] + [run[k]];
    ThenEvent(run[..k], run[k], START, follows);
  }

  predicate PlayingAt(run: seq<Event>, k: nat)
    requires k < |run|
  {
    run[k].Poll? && run[k].answer.Playing?
  }

  ghost predicate Played(run: seq<Event>, k: nat)
    requires k <= |run|
  {
    exists i :: 0 <= i < k && PlayingAt(run, i)
  }

  /** At event `k` the renderer, which had been playing, is found paused without being told to. */
  ghost predicate PausedByThem(run: seq<Event>, k: nat, follows: bool)
    requires k < |run|
  {
    run[k].Poll? && run[k].answer.Paused? && follows && Played(run, k) && !At(run, k, follows).pausedHere
  }

  /** The renderer's own pause at event `i` still lasts: no Playing answer came since. */
  ghost predicate StillTheirs(run: seq<Event>, i: nat, k: nat, follows: bool)
    requires k <= |run|
  {
    i < k && PausedByThem(run, i, follows) && forall m | i < m < k :: !PlayingAt(run, m)
  }

  ghost predicate TheirPause(run: seq<Event>, k: nat, follows: bool)
    requires k <= |run|
  {
    exists i: nat :: StillTheirs(run, i, k, follows)
  }

  lemma PlayedNext(run: seq<Event>, k: nat)
    requires k < |run|
    ensures Played(run, k + 1) <==> Played(run, k) || PlayingAt(run, k)
  {
    if Played(run, k) {
      var i :| 0 <= i < k && PlayingAt(run, i);
      assert i < k + 1;
    } else if PlayingAt(run, k) {
      assert k < k + 1;
    }
  }

  lemma TheirPauseNext(run: seq<Event>, k: nat, follows: bool)
    requires k < |run|
    ensures TheirPause(run, k + 1, follows)
       <==> PausedByThem(run, k, follows) || (TheirPause(run, k, follows) && !PlayingAt(run, k))
  {
    if PausedByThem(run, k, follows) {
      assert StillTheirs(run, k, k + 1, follows);
    } else if TheirPause(run, k, follows) && !PlayingAt(run, k) {
      var i: nat :| StillTheirs(run, i, k, follows);
      assert StillTheirs(run, i, k + 1, follows);
    }
    if TheirPause(run, k + 1, follows) {
      var i: nat :| StillTheirs(run, i, k + 1, follows);
      assert i < k ==> StillTheirs(run, i, k, follows);
    }
  }

  /** What the poller remembers over a run that has not ended. */
  lemma {:induction false} PollerRemembers(run: seq<Event>, k: nat, follows: bool)
    requires k <= |run| && !At(run, k, follows).over
    ensures At(run, k, follows).poller.everPlayed <==> Played(run, k)
    ensures At(run, k, follows).poller.pausedByRenderer <==> TheirPause(run, k, follows)
  {
    if k > 0 {
      AtNext(run, k - 1, follows);
      PollerRemembers(run, k - 1, follows);
      PlayedNext(run, k - 1);
      TheirPauseNext(run, k - 1, follows);
    }
  }

  /**
   * What a poll does to the file and to what the renderer is taken to know, over
   * every run: a pause of the renderer's own holds the file, the next Playing
   * answer after it resumes the file, and no other answer moves either.
   */
  lemma PollMoves(run: seq<Event>, k: nat, follows: bool)
    requires k < |run| && run[k].Poll? && !At(run, k, follows).over
    ensures var s, s' := At(run, k, follows), At(run, k + 1, follows);
            var paused := if PausedByThem(run, k, follows) then Some(true)
                          else if PlayingAt(run, k) && TheirPause(run, k, follows) then Some(false) else None;
            && s'.pausedHere == (if paused.Some? then paused.value else s.pausedHere)
            && s'.target == (if paused.Some? && run[k].sets then paused.value else s.target)
  {
    AtNext(run, k, follows);
    PollerRemembers(run, k, follows);
  }

  /** What the renderer last said of itself or was told, over the first `k` events; at the start it plays. */
  ghost function LastSaid(run: seq<Event>, k: nat, follows: bool): bool
    requires k <= |run|
  {
    if k == 0 then false
    else if Tells(At(run, k - 1, follows), run[k - 1], follows) then At(run, k - 1, follows).target
    else if At(run, k - 1, follows).over then LastSaid(run, k - 1, follows)
    else if PausedByThem(run, k - 1, follows) then true
    else if PlayingAt(run, k - 1) && TheirPause(run, k - 1, follows) then false
    else LastSaid(run, k - 1, follows)
  }

  /** Over every run the flag is the truth about the renderer: it never changes without a word from it or to it. */
  lemma {:induction false} FlagIsLastSaid(run: seq<Event>, k: nat, follows: bool)
    requires k <= |run|
    ensures At(run, k, follows).pausedHere == LastSaid(run, k, follows)
  {
    if k > 0 {
      FlagIsLastSaid(run, k - 1, follows);
      AtNext(run, k - 1, follows);
      if run[k - 1].Poll? && !At(run, k - 1, follows).over {
        PollMoves(run, k - 1, follows);
      }
    }
  }

  // -------------------------------------------------------------------- end

  /** One poll as the poller meets it. */
  datatype Seen = Seen(answer: Answer, pausedHere: bool)

  /** The poller after some polls, none of which ended the session. */
  function PollerAfter(polls: seq<Seen>, follows: bool): Poller {
    if polls == [] then FRESH_POLLER
    else
      var last := polls[|polls| - 1];
      Polled(PollerAfter(polls[..|polls| - 1], follows), last.answer, last.pausedHere, follows).poller
  }

  /** The session ends at poll `k`, and not before. */
  predicate EndsAt(polls: seq<Seen>, k: nat, follows: bool)
    requires k < |polls|
  {
    Polled(PollerAfter(polls[..k], follows), polls[k].answer, polls[k].pausedHere, follows).over
  }

  /** It has played before poll `k`. */
  ghost predicate PlayedBefore(polls: seq<Seen>, k: nat)
    requires k <= |polls|
  {
    exists i :: 0 <= i < k && polls[i].answer.Playing?
  }

  /** Poll `k` shows the session alive: playing, changing, or paused with one of the two sides knowing. */
  ghost predicate Alive(polls: seq<Seen>, k: nat, follows: bool)
    requires k < |polls|
  {
    var Seen(a, pausedHere) := polls[k];
    a.Playing? || a.Transitioning? || (a.Paused? && (pausedHere || (follows && PlayedBefore(polls, k))))
  }

  /** Poll `k` speaks for an end: no answer, or silence after it had played. */
  ghost predicate Silent(polls: seq<Seen>, k: nat, follows: bool)
    requires k < |polls|
  {
    !Alive(polls, k, follows) && (polls[k].answer.Error? || PlayedBefore(polls, k))
  }

  lemma {:induction false} PollerKnows(polls: seq<Seen>, k: nat, follows: bool)
    requires k <= |polls|
    ensures PollerAfter(polls[..k], follows).everPlayed <==> PlayedBefore(polls, k)
  {
    if k > 0 {
      PollerKnows(polls, k - 1, follows);
      assert polls[..k][..k - 1] == polls[..k - 1];
      if PlayedBefore(polls, k) && !PlayedBefore(polls, k - 1) {
        assert polls[k - 1].answer.Playing?;
      }
      if PlayedBefore(polls, k - 1) {
        var i :| 0 <= i < k - 1 && polls[i].answer.Playing?;
        assert i < k && polls[i].answer.Playing?;
      }
      if polls[k - 1].answer.Playing? {
        assert PlayedBefore(polls, k);
      }
    }
  }

  /** Since poll `i`, nothing showed the session alive and nothing else spoke for an end. */
  ghost predicate QuietSince(polls: seq<Seen>, i: nat, k: nat, follows: bool)
    requires k <= |polls|
  {
    forall m | i < m < k :: !Alive(polls, m, follows) && !Silent(polls, m, follows)
  }

  /** Some poll before `k` spoke for an end, and none since showed the session alive. */
  ghost predicate OneSilent(polls: seq<Seen>, k: nat, follows: bool)
    requires k <= |polls|
  {
    exists i :: 0 <= i < k && Silent(polls, i, follows) && QuietSince(polls, i, k, follows)
  }

  ghost predicate NotOverBefore(polls: seq<Seen>, k: nat, follows: bool)
    requires k <= |polls|
  {
    forall m | 0 <= m < k :: !EndsAt(polls, m, follows)
  }

  lemma {:induction false} IdlePollsMean(polls: seq<Seen>, k: nat, follows: bool)
    requires k <= |polls| && NotOverBefore(polls, k, follows)
    ensures PollerAfter(polls[..k], follows).idlePolls == if OneSilent(polls, k, follows) then 1 else 0
  {
    if k > 0 {
      IdlePollsMean(polls, k - 1, follows);
      PollerKnows(polls, k - 1, follows);
      assert polls[..k][..k - 1] == polls[..k - 1];
      assert !EndsAt(polls, k - 1, follows);
      if Silent(polls, k - 1, follows) {
        assert QuietSince(polls, k - 1, k, follows);
      } else if Alive(polls, k - 1, follows) {
        assert !OneSilent(polls, k, follows);
      } else if OneSilent(polls, k - 1, follows) {
        var i :| 0 <= i < k - 1 && Silent(polls, i, follows) && QuietSince(polls, i, k - 1, follows);
        assert QuietSince(polls, i, k, follows);
      } else if OneSilent(polls, k, follows) {
        var i :| 0 <= i < k && Silent(polls, i, follows) && QuietSince(polls, i, k, follows);
        assert QuietSince(polls, i, k - 1, follows);
      }
    }
  }

  /**
   * An end is always justified, and never missed: the session ends at a poll
   * exactly when that poll and one before it speak for an end and no poll
   * between them shows the session alive; silence only counts after playing.
   */
  lemma EndsExactly(polls: seq<Seen>, k: nat, follows: bool)
    requires k < |polls| && NotOverBefore(polls, k, follows)
    ensures EndsAt(polls, k, follows) <==> Silent(polls, k, follows) && OneSilent(polls, k, follows)
  {
    IdlePollsMean(polls, k, follows);
    PollerKnows(polls, k, follows);
  }
}
