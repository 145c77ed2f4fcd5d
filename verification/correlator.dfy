/**
 * The touch correlator of `MainActivity.onTouchEvent` as a state machine over values: open
 * contacts' start times and peak readings keyed by pointer id, and the pending-tap list that
 * a completed contact is appended to.
 */
module Correlator {
  import opened Wrappers
  import opened Taps

  /**
   * A `MotionEvent` reduced to what the handler reads: `ACTION_DOWN`/`ACTION_POINTER_DOWN`
   * with the acting pointer and its wall-clock time, `ACTION_MOVE` with the ids of all
   * pointers in the event, `ACTION_UP`/`ACTION_POINTER_UP`, `ACTION_CANCEL`, and any other action.
   */
  datatype Signal =
    | Down(id: int, ts: int)
    | Move(ids: seq<int>)
    | Up(id: int, ts: int)
    | Cancel(id: int)
    | Other

  /** `isLoggingEnabled`, `touchStartMap`, `peakPressureMap` and `pendingTaps`. */
  datatype State = State(enabled: bool, starts: map<int, int>, peaks: map<int, int>, pending: seq<TapEvent>)

  /** What `onTouchEvent` returns, and the state it leaves. */
  datatype Reaction = Reaction(handled: bool, next: State)

  function Max(a: int, b: int): int
  {
    if a < b then b else a
  }

  function Get(m: map<int, int>, k: int, default: int): int
  {
    if k in m then m[k] else default
  }

  /** Every contact with a start time also has a peak. */
  ghost predicate Consistent(s: State)
  {
    s.starts.Keys <= s.peaks.Keys
  }

  /**
   * The peak map after a move at ambient reading `a`: every listed id gets the larger of its
   * stored peak (the reading itself when it has none) and the reading; no other entry changes.
   */
  function MovedPeaks(m: map<int, int>, ids: seq<int>, a: int): (r: map<int, int>)
    ensures r.Keys == m.Keys + (set id | id in ids)
    ensures forall k :: k in m ==> r[k] >= m[k]
    ensures forall k :: k in r && k !in ids ==> r[k] == m[k]
    ensures forall k :: k in ids ==> r[k] >= a
    ensures forall k :: k in ids ==> r[k] == Max(Get(m, k, a), a)
  {
    map k | k in m.Keys + (set id | id in ids) :: if k in ids then Max(Get(m, k, a), a) else m[k]
  }

  /** Handling the first `i + 1` pointers of a move is handling the first `i` and then pointer `i`. */
  lemma MovedPeaksStep(m: map<int, int>, ids: seq<int>, i: nat, a: int)
    requires i < |ids|
    ensures var before := MovedPeaks(m, ids[..i], a);
      MovedPeaks(m, ids[..i + 1], a) == before[ids[i] := Max(Get(before, ids[i], a), a)]
  {
    assert ids[..i + 1] == ids[..i] + [ids[i]];
  }

  /** `onTouchEvent` on one signal, `ambient` being `currentAmbientPressure` at that moment. */
  function Touch(s: State, sig: Signal, ambient: int): (r: Reaction)
    ensures r.next.enabled == s.enabled
    ensures !s.enabled ==> r == Reaction(false, s)
    ensures !r.handled ==> r.next == s
    ensures Consistent(s) ==> Consistent(r.next)
    ensures r.next.pending == s.pending
      || (&& s.enabled && sig.Up? && sig.id in s.starts
          && r.next.pending == s.pending + [TapEvent(s.starts[sig.id], sig.ts - s.starts[sig.id], Get(s.peaks, sig.id, ambient), "")])
  {
    if !s.enabled then Reaction(false, s)
    else
      match sig
      case Down(id, ts) =>
        Reaction(true, s.(starts := s.starts[id := ts], peaks := s.peaks[id := ambient]))
      case Move(ids) =>
        Reaction(true, s.(peaks := MovedPeaks(s.peaks, ids, ambient)))
      case Up(id, ts) =>
        if id !in s.starts then Reaction(false, s)
        else
          var start := s.starts[id];
          var tap := TapEvent(start, ts - start, Get(s.peaks, id, ambient), "");
          Reaction(true, s.(pending := s.pending + [tap], starts := s.starts - {id}, peaks := s.peaks - {id}))
      case Cancel(id) =>
        Reaction(true, s.(starts := s.starts - {id}, peaks := s.peaks - {id}))
      case Other =>
        Reaction(true, s)
  }

  /** `stopLogging`: logging off and the start map cleared; the peak map is kept. */
  function Stop(s: State): (r: State)
    ensures Consistent(r) && !r.enabled && r.starts == map[]
    ensures r.peaks == s.peaks && r.pending == s.pending
  {
    s.(enabled := false, starts := map[])
  }

  /** While logging is off, a touch is not consumed and changes nothing. */
  lemma DisabledIgnoresTouches(s: State, sig: Signal, ambient: int)
    requires !s.enabled
    ensures Touch(s, sig, ambient) == Reaction(false, s)
  {
  }

  /** A down (re)opens the contact for its id, overwriting any earlier entry; other ids keep theirs. */
  lemma DownOpensContact(s: State, id: int, ts: int, ambient: int)
    requires s.enabled
    ensures var n := Touch(s, Down(id, ts), ambient).next;
      && n.starts == s.starts[id := ts] && n.peaks == s.peaks[id := ambient]
      && n.pending == s.pending
  {
  }

  /** Under the invariant, an up for an open contact reports the stored peak (the fallback is dead). */
  lemma UpReportsStoredPeak(s: State, id: int, ts: int, ambient: int)
    requires s.enabled && Consistent(s) && id in s.starts
    ensures var r := Touch(s, Up(id, ts), ambient);
      && r.handled
      && r.next.pending == s.pending + [TapEvent(s.starts[id], ts - s.starts[id], s.peaks[id], "")]
      && id !in r.next.starts && id !in r.next.peaks
  {
  }

  /** An up with no recorded start, and any cancel, append nothing; a cancel closes the contact. */
  lemma SpuriousUpAndCancelEmitNothing(s: State, id: int, ts: int, ambient: int)
    ensures id !in s.starts ==> Touch(s, Up(id, ts), ambient) == Reaction(false, s)
    ensures var n := Touch(s, Cancel(id), ambient).next;
      && n.pending == s.pending
      && (s.enabled ==> id !in n.starts && id !in n.peaks)
  {
  }

  /** A touch signal paired with the ambient reading current when it is handled. */
  datatype Input = Input(sig: Signal, ambient: int)

  /** The state after handling a sequence of inputs in order. */
  function Run(s: State, trace: seq<Input>): State
  {
    if trace == [] then s
    else
      var last := trace[|trace| - 1];
      Touch(Run(s, trace[..|trace| - 1]), last.sig, last.ambient).next
  }

  /** The input does not open, close or cancel pointer `id` (a move may still list it). */
  predicate LeavesAlone(sig: Signal, id: int)
  {
    match sig
    case Down(j, _) => j != id
    case Up(j, _) => j != id
    case Cancel(j) => j != id
    case _ => true
  }

  /** Whether the input is a move that lists pointer `id`. */
  predicate Lists(i: Input, id: int)
  {
    i.sig.Move? && id in i.sig.ids
  }

  /**
   * The largest of `a0` and the readings of the moves in `trace` that list pointer `id`: no
   * smaller than any of them, and equal to one of them.
   */
  function PeakOver(a0: int, trace: seq<Input>, id: int): (p: int)
    ensures p >= a0
    ensures forall k :: 0 <= k < |trace| && Lists(trace[k], id) ==> p >= trace[k].ambient
    ensures p == a0 || exists k :: 0 <= k < |trace| && Lists(trace[k], id) && p == trace[k].ambient
  {
    if trace == [] then a0
    else
      var init := trace[..|trace| - 1];
      var last := trace[|trace| - 1];
      var q := PeakOver(a0, init, id);
      assert forall k :: 0 <= k < |init| ==> init[k] == trace[k];
      if Lists(last, id) then Max(q, last.ambient) else q
  }

  /** An input that leaves pointer `id` alone keeps its start, and raises its peak only on a move listing it. */
  lemma StepKeepsContact(m: State, id: int, i: Input)
    requires m.enabled && id in m.starts && id in m.peaks
    requires LeavesAlone(i.sig, id)
    ensures var n := Touch(m, i.sig, i.ambient).next;
      && n.enabled && id in n.starts && n.starts[id] == m.starts[id] && id in n.peaks
      && n.peaks[id] == (if i.sig.Move? && id in i.sig.ids then Max(m.peaks[id], i.ambient) else m.peaks[id])
  {
  }

  /** After a down, inputs that leave the pointer alone keep the contact open with the running peak. */
  lemma {:induction false} OpenContact(s: State, id: int, t0: int, a0: int, mid: seq<Input>)
    requires s.enabled
    requires forall k :: 0 <= k < |mid| ==> LeavesAlone(mid[k].sig, id)
    ensures var m := Run(s, [Input(Down(id, t0), a0)] + mid);
      && m.enabled
      && id in m.starts && m.starts[id] == t0
      && id in m.peaks && m.peaks[id] == PeakOver(a0, mid, id)
  {
    var down := Input(Down(id, t0), a0);
    if mid == [] {
      RunSnoc(s, [], down);
      assert [] + [down] == [down] + mid;
    } else {
      var init := mid[..|mid| - 1];
      OpenContact(s, id, t0, a0, init);
      assert LeavesAlone(mid[|mid| - 1].sig, id);
      StepKeepsContact(Run(s, [down] + init), id, mid[|mid| - 1]);
      RunSnoc(s, [down] + init, mid[|mid| - 1]);
      assert [down] + init + [mid[|mid| - 1]] == [down] + mid;
    }
  }

  /** Running one more input is one more touch step. */
  lemma RunSnoc(s: State, trace: seq<Input>, i: Input)
    ensures Run(s, trace + [i]) == Touch(Run(s, trace), i.sig, i.ambient).next
  {
    assert (trace + [i])[..|trace|] == trace;
  }

  /**
   * A contact from down to up emits exactly one tap: duration `t1 - t0`, label empty, and as
   * peak the largest of the reading at the down and the readings of every move listing the
   * pointer in between; the contact is closed afterwards.
   */
  lemma ContactEmitsOneTap(s: State, id: int, t0: int, a0: int, mid: seq<Input>, t1: int, a1: int)
    requires s.enabled
    requires forall k :: 0 <= k < |mid| ==> LeavesAlone(mid[k].sig, id)
    ensures var open := Run(s, [Input(Down(id, t0), a0)] + mid);
      var closed := Run(s, [Input(Down(id, t0), a0)] + mid + [Input(Up(id, t1), a1)]);
      && closed.pending == open.pending + [TapEvent(t0, t1 - t0, PeakOver(a0, mid, id), "")]
      && id !in closed.starts && id !in closed.peaks
  {
    var before := [Input(Down(id, t0), a0)] + mid;
    var up := Input(Up(id, t1), a1);
    OpenContact(s, id, t0, a0, mid);
    var open := Run(s, before);
    assert id in open.starts && open.starts[id] == t0 && id in open.peaks;
    UpClosesContact(open, id, t1, a1);
    RunSnoc(s, before, up);
    var closed := Run(s, before + [up]);
    assert closed == Touch(open, Up(id, t1), a1).next;
    var tap := TapEvent(t0, t1 - t0, PeakOver(a0, mid, id), "");
    assert TapEvent(open.starts[id], t1 - open.starts[id], open.peaks[id], "") == tap;
    assert closed.pending == open.pending + [tap];
  }

  /** An up for a contact with a start and a peak appends the tap with that peak and closes the contact. */
  lemma UpClosesContact(m: State, id: int, ts: int, ambient: int)
    requires m.enabled && id in m.starts && id in m.peaks
    ensures var tap := TapEvent(m.starts[id], ts - m.starts[id], m.peaks[id], "");
      Touch(m, Up(id, ts), ambient).next
        == m.(pending := m.pending + [tap], starts := m.starts - {id}, peaks := m.peaks - {id})
  {
  }
}
