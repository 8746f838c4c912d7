/** The drag-to-reorder bookkeeping of DDTableView: which row is picked up, which row it last
    occupied, and whether the centre offset, the floating snapshot and the edge-scroll timer
    exist. Everything UIKit answers during one gesture callback arrives as a `Sample`. */
module DragDropKit {
  import opened Tables

  /** The phases a gesture recognizer reports to its action (UIGestureRecognizer.State). */
  datatype GestureState = Possible | Began | Changed | Ended | Cancelled | Failed {
    predicate IsOver() { Ended? || Cancelled? || Failed? }
  }

  /** What UIKit and the delegates answer during one gesture callback. */
  datatype Sample = Sample(
    hitRow: Option<IndexPath>,   // indexPathForRow(at:) at the touch location
    hitCell: bool,               // cellForRow(at:) finds a cell for hitRow
    sourceCell: bool,            // cellForRow(at:) finds a cell for sourceIndexPath
    canMoveRow: Option<bool>,    // the data source's tableView(_:canMoveRowAt:) for hitRow; None when not implemented
    implementsMoveRow: bool,     // the data source implements tableView(_:moveRowAt:to:)
    snapshotMade: bool)          // fetchSnapShotView(from:) returns a view

  /** The optional fields of a DDTableView, each optional view or point seen only as present or absent. */
  datatype DragState = DragState(
    centerDistance: bool,        // centerDistancePoint != nil
    source: Option<IndexPath>,   // sourceIndexPath
    last: Option<IndexPath>,     // lastIndexPath
    snapShot: bool,              // snapShotView != nil
    edgeScroll: bool)            // edgeScrollTimer != nil

  /** What a callback asks of the world outside the table view: the delegate's beginMoveRowAt,
      the data source's moveRowAt together with the table's own moveRow, or the delegate's
      endMoveRowAt. */
  datatype Effect = NoEffect | BeginMove(at: IndexPath) | MoveRow(from: IndexPath, to: IndexPath) | EndMove(at: IndexPath)

  const Initial := DragState(false, None, None, false, false)

  /** No row is picked up: releaseValues has cleared the offset, the source and the snapshot. */
  predicate Idle(st: DragState) {
    !st.centerDistance && st.source.None? && !st.snapShot
  }

  /** A row is picked up and everything the change handler needs is present. */
  predicate Dragging(st: DragState) {
    st.centerDistance && st.source.Some? && st.last.Some? && st.snapShot
  }

  /** The offset, the source and the snapshot are present or absent together. */
  predicate Coherent(st: DragState) {
    Idle(st) || Dragging(st)
  }

  /** Coherent, and the edge-scroll timer runs only while a row is picked up. */
  predicate Settled(st: DragState) {
    Coherent(st) && (st.edgeScroll ==> Dragging(st))
  }

  /** A `canMoveRowAt` answer blocks a move only when the data source answers false. */
  predicate MayMove(answer: Option<bool>) {
    answer != Some(false)
  }

  /** releaseValues: drop the offset, the source and the snapshot; lastIndexPath and the timer stay. */
  function Released(st: DragState): (r: DragState)
    ensures Idle(r)
    ensures r.last == st.last && r.edgeScroll == st.edgeScroll
  {
    st.(centerDistance := false, source := None, snapShot := false)
  }

  /** gestureBegan: pick up the row under the touch. */
  function Begin(st: DragState, s: Sample): (r: (DragState, Effect))
    ensures r.1.NoEffect? || r.1.BeginMove?
    ensures r.1.BeginMove? <==> s.hitRow.Some? && s.hitCell && MayMove(s.canMoveRow)
    ensures r.1.BeginMove? ==> Some(r.1.at) == s.hitRow
    ensures Dragging(r.0) <==> r.1.BeginMove? && s.snapshotMade
    ensures Dragging(r.0) ==> r.0.source == s.hitRow && r.0.last == s.hitRow && r.0.edgeScroll
    ensures !Dragging(r.0) ==> Idle(r.0) && r.0.edgeScroll == st.edgeScroll
    ensures !Dragging(r.0) ==> r.0.last == if r.1.BeginMove? then s.hitRow else st.last
  {
    var released := Released(st);
    if s.hitRow.None? || !s.hitCell then (Released(released), NoEffect)
    else if !MayMove(s.canMoveRow) then (released, NoEffect)
    else
      var picked := released.(centerDistance := true, source := s.hitRow, last := s.hitRow);
      if !s.snapshotMade then (Released(picked.(snapShot := false)), BeginMove(s.hitRow.value))
      else (picked.(snapShot := true, edgeScroll := true), BeginMove(s.hitRow.value))
  }

  /** gestureChanged: when the touch is over another row, ask for the picked-up row to move there. */
  function Change(st: DragState, s: Sample): (r: (DragState, Effect))
    ensures r.1.NoEffect? || r.1.MoveRow?
    ensures r.1.MoveRow? <==>
      Dragging(st) && s.hitRow.Some? && s.hitRow != st.source && MayMove(s.canMoveRow) && s.implementsMoveRow
    ensures r.1.NoEffect? ==> r.0 == st
    ensures r.1.MoveRow? ==> Some(r.1.from) == st.source && Some(r.1.to) == s.hitRow
    ensures r.1.MoveRow? ==> r.0.last == st.source && r.0.source == s.hitRow
    ensures r.0.centerDistance == st.centerDistance && r.0.snapShot == st.snapShot && r.0.edgeScroll == st.edgeScroll
  {
    if s.hitRow.None? || !st.centerDistance || st.source.None? || st.last.None? || !st.snapShot then (st, NoEffect)
    else if s.hitRow == st.source then (st, NoEffect)
    else if !MayMove(s.canMoveRow) then (st, NoEffect)
    else if !s.implementsMoveRow then (st, NoEffect)
    else (st.(last := st.source, source := s.hitRow), MoveRow(st.source.value, s.hitRow.value))
  }

  /** gestureOver: stop the edge scroll and report where the drag ended; the values are released
      now when something is missing, otherwise when the takeoff animation completes. */
  function Over(st: DragState, s: Sample): (r: (DragState, Effect))
    ensures !r.0.edgeScroll
    ensures r.1.NoEffect? || r.1.EndMove?
    ensures r.1.EndMove? <==>
      st.centerDistance && st.source.Some? && st.snapShot && s.sourceCell && (s.hitRow.Some? || st.last.Some?)
    ensures r.1.EndMove? ==> Some(r.1.at) == (if s.hitRow.Some? then s.hitRow else st.last)
    ensures r.1.EndMove? ==> r.0 == st.(edgeScroll := false)
    ensures r.1.NoEffect? ==> Idle(r.0) && r.0.last == st.last
  {
    var stopped := st.(edgeScroll := false);
    var indexPath := if s.hitRow.Some? then s.hitRow else st.last;
    if indexPath.None? || !st.centerDistance || st.source.None? || !s.sourceCell || !st.snapShot then
      (Released(stopped), NoEffect)
    else
      (stopped, EndMove(indexPath.value))
  }

  /** gestureRecognizerAction: dispatch on the recognizer's state. */
  function Action(st: DragState, phase: GestureState, s: Sample): (r: (DragState, Effect))
    ensures phase.Possible? ==> r == (st, NoEffect)
    ensures phase.Began? ==> r == Begin(st, s)
    ensures phase.Changed? ==> r == Change(st, s)
    ensures phase.IsOver() ==> r == Over(st, s)
    ensures Coherent(st) ==> Coherent(r.0)
    ensures Settled(st) && !(phase.Began? && st.edgeScroll) ==> Settled(r.0)
  {
    match phase
    case Began => Begin(st, s)
    case Changed => Change(st, s)
    case Ended | Cancelled | Failed => Over(st, s)
    case Possible => (st, NoEffect)
  }

  /** One thing that can happen to the table view: a gesture callback, or the completion of the
      takeoff animation that gestureOver started. */
  datatype Event = Gesture(phase: GestureState, sample: Sample) | TakeoffFinished

  function Apply(st: DragState, e: Event): DragState {
    match e
    case Gesture(phase, s) => Action(st, phase, s).0
    case TakeoffFinished => Released(st)
  }

  function Replay(st: DragState, events: seq<Event>): DragState
    decreases |events|
  {
    if events == [] then st else Replay(Apply(st, events[0]), events[1..])
  }

  lemma {:induction false} ReplayAppend(st: DragState, a: seq<Event>, b: seq<Event>)
    ensures Replay(st, a + b) == Replay(Replay(st, a), b)
    decreases |a|
  {
    if a == [] {
      assert a + b == b;
    } else {
      assert (a + b)[1..] == a[1..] + b;
      ReplayAppend(Apply(st, a[0]), a[1..], b);
    }
  }

  /** Whatever happens, the offset, the source and the snapshot stay present or absent together. */
  lemma {:induction false} ReplayKeepsCoherent(st: DragState, events: seq<Event>)
    requires Coherent(st)
    ensures Coherent(Replay(st, events))
    decreases |events|
  {
    if events != [] {
      ReplayKeepsCoherent(Apply(st, events[0]), events[1..]);
    }
  }

  function ChangedEvents(samples: seq<Sample>): (es: seq<Event>)
    ensures |es| == |samples|
    ensures forall i :: 0 <= i < |es| ==> es[i] == Gesture(Changed, samples[i])
  {
    seq(|samples|, i requires 0 <= i < |samples| => Gesture(Changed, samples[i]))
  }

  /** Change events never start or stop the timer and never drop a picked-up row. */
  lemma {:induction false} ChangesKeepDrag(st: DragState, samples: seq<Sample>)
    requires Settled(st)
    ensures var end := Replay(st, ChangedEvents(samples));
      Settled(end) && end.edgeScroll == st.edgeScroll && Dragging(end) == Dragging(st)
    decreases |samples|
  {
    if samples != [] {
      assert ChangedEvents(samples)[1..] == ChangedEvents(samples[1..]);
      ChangesKeepDrag(Change(st, samples[0]).0, samples[1..]);
    }
  }

  /** A whole gesture as a recognizer reports it (began, any number of changes, then ended,
      cancelled or failed), started with no timer running, leaves no timer running, and the
      timer ran only while a row was picked up; after the takeoff completes nothing is picked up. */
  lemma GestureStopsEdgeScroll(st: DragState, began: Sample, changes: seq<Sample>, phase: GestureState, over: Sample)
    requires Settled(st) && !st.edgeScroll && phase.IsOver()
    ensures var end := Replay(st, [Gesture(Began, began)] + ChangedEvents(changes) + [Gesture(phase, over)]);
      Settled(end) && !end.edgeScroll && Idle(Apply(end, TakeoffFinished))
  {
    var afterBegin := Begin(st, began).0;
    var afterChanges := Replay(afterBegin, ChangedEvents(changes));
    ReplayAppend(st, [Gesture(Began, began)], ChangedEvents(changes));
    ReplayAppend(st, [Gesture(Began, began)] + ChangedEvents(changes), [Gesture(phase, over)]);
    ChangesKeepDrag(afterBegin, changes);
    assert Replay(st, [Gesture(Began, began)]) == afterBegin;
  }

  const MinimumPressDuration: real := 0.2

  /** The didSet observer of durationOGesturePress: durations below the minimum become the minimum. */
  function PressDuration(value: real): (d: real)
    ensures d >= MinimumPressDuration
    ensures d == value <==> value >= MinimumPressDuration
    ensures value < MinimumPressDuration ==> d == MinimumPressDuration
  {
    if value < MinimumPressDuration then MinimumPressDuration else value
  }

  /** The table view, reduced to the fields its gesture handlers update. */
  class DDTableView {
    var hasCenterDistancePoint: bool
    var sourceIndexPath: Option<IndexPath>
    var lastIndexPath: Option<IndexPath>
    var hasSnapShotView: bool
    var edgeScrollRunning: bool
    var durationOGesturePress: real

    function State(): DragState
      reads this
    {
      DragState(hasCenterDistancePoint, sourceIndexPath, lastIndexPath, hasSnapShotView, edgeScrollRunning)
    }

    constructor ()
      ensures State() == Initial && durationOGesturePress == 0.5
    {
      hasCenterDistancePoint := false;
      sourceIndexPath := None;
      lastIndexPath := None;
      hasSnapShotView := false;
      edgeScrollRunning := false;
      durationOGesturePress := 0.5;
    }

    method SetDurationOGesturePress(value: real)
      modifies this`durationOGesturePress
      ensures durationOGesturePress == PressDuration(value)
      ensures durationOGesturePress >= MinimumPressDuration
    {
      durationOGesturePress := value;
      if durationOGesturePress < 0.2 {
        durationOGesturePress := 0.2;
      }
    }

    method ReleaseValues()
      modifies this`hasCenterDistancePoint, this`sourceIndexPath, this`hasSnapShotView
      ensures State() == Released(old(State()))
    {
      hasCenterDistancePoint := false;
      sourceIndexPath := None;
      hasSnapShotView := false;
    }

    method StartEdgeScroll()
      modifies this`edgeScrollRunning
      ensures edgeScrollRunning
    {
      edgeScrollRunning := true;
    }

    method StopEdgeScroll()
      modifies this`edgeScrollRunning
      ensures !edgeScrollRunning
    {
      edgeScrollRunning := false;
    }

    method GestureBegan(s: Sample) returns (effect: Effect)
      modifies this`hasCenterDistancePoint, this`sourceIndexPath, this`lastIndexPath, this`hasSnapShotView, this`edgeScrollRunning
      ensures (State(), effect) == Begin(old(State()), s)
    {
      ReleaseValues();
      if s.hitRow.None? || !s.hitCell {
        ReleaseValues();
        return NoEffect;
      }
      var currentIndexPath := s.hitRow.value;
      if s.canMoveRow.Some? && !s.canMoveRow.value {
        return NoEffect;
      }
      hasCenterDistancePoint := true;
      effect := BeginMove(currentIndexPath);
      sourceIndexPath := Some(currentIndexPath);
      lastIndexPath := Some(currentIndexPath);
      hasSnapShotView := s.snapshotMade;
      if !hasSnapShotView {
        ReleaseValues();
        return;
      }
      StartEdgeScroll();
    }

    method GestureChanged(s: Sample) returns (effect: Effect)
      modifies this`sourceIndexPath, this`lastIndexPath
      ensures (State(), effect) == Change(old(State()), s)
    {
      effect := NoEffect;
      if s.hitRow.None? || !hasCenterDistancePoint || sourceIndexPath.None? || lastIndexPath.None? || !hasSnapShotView {
        return;
      }
      var currentIndexPath := s.hitRow.value;
      var source := sourceIndexPath.value;
      if currentIndexPath == source {
        return;
      }
      if s.canMoveRow.Some? && !s.canMoveRow.value {
        return;
      }
      if !s.implementsMoveRow {
        return;
      }
      effect := MoveRow(source, currentIndexPath);
      lastIndexPath := Some(source);
      sourceIndexPath := Some(currentIndexPath);
    }

    method GestureOver(s: Sample) returns (effect: Effect)
      modifies this`hasCenterDistancePoint, this`sourceIndexPath, this`hasSnapShotView, this`edgeScrollRunning
      ensures (State(), effect) == Over(old(State()), s)
    {
      StopEdgeScroll();
      var indexPath: Option<IndexPath> := None;
      if s.hitRow.Some? {
        indexPath := s.hitRow;
      } else if lastIndexPath.Some? {
        indexPath := lastIndexPath;
      }
      if indexPath.None? || !hasCenterDistancePoint || sourceIndexPath.None? || !s.sourceCell || !hasSnapShotView {
        ReleaseValues();
        return NoEffect;
      }
      effect := EndMove(indexPath.value);
    }

    /** The completion of the takeoff animation that GestureOver starts. */
    method TakeoffCompletion()
      modifies this`hasCenterDistancePoint, this`sourceIndexPath, this`hasSnapShotView
      ensures State() == Apply(old(State()), TakeoffFinished)
    {
      ReleaseValues();
    }

    method GestureRecognizerAction(phase: GestureState, s: Sample) returns (effect: Effect)
      modifies this`hasCenterDistancePoint, this`sourceIndexPath, this`lastIndexPath, this`hasSnapShotView, this`edgeScrollRunning
      ensures (State(), effect) == Action(old(State()), phase, s)
    {
      match phase {
        case Began =>
          effect := GestureBegan(s);
        case Changed =>
          effect := GestureChanged(s);
        case Ended | Cancelled | Failed =>
          effect := GestureOver(s);
        case Possible =>
          effect := NoEffect;
      }
    }
  }
}
