/** internal/fleetmetrics/vocab.go and the event readers of linkage.go: task states in
    both vocabularies, and the events the metrics replay. */
module Vocabulary {
  import opened Common

  datatype TaskState =
    | Triage | Backlog | Unstarted | Researching | Developing | Reviewing
    | Merged | Deployed | Completed | Dropped | Duplicate | Icebox
    | OldClaimed | OldInProgress | OldVerifying | OldJoin | OldNeedsDecision | OldReopened
    | OtherState(name: string)

  /** "" rows were written before events had a kind. */
  datatype EventKind = Untyped | Transition | Awaiting | OtherKind(name: string)

  /** flag is the awaiting_decision value an Awaiting event wrote, when it wrote one. */
  datatype TaskEvent = TaskEvent(kind: EventKind, from: TaskState, to: TaskState, flag: Option<bool>, at: Tick)

  predicate IsMerged(s: TaskState) { s.Merged? || s.Deployed? }

  predicate IsDropped(s: TaskState) { s.Dropped? || s.Duplicate? }

  predicate IsSettled(s: TaskState) { IsMerged(s) || s.Completed? || IsDropped(s) }

  predicate IsReady(s: TaskState) { s.Backlog? || s.Unstarted? || s.OldReopened? }

  predicate IsStartEntry(s: TaskState) { s.OldClaimed? || s.Researching? || s.Developing? }

  predicate IsReview(s: TaskState) { s.OldVerifying? || s.Reviewing? }

  predicate StateEvent(e: TaskEvent) { e.kind.Untyped? || e.kind.Transition? }

  predicate IsReopen(e: TaskEvent) {
    StateEvent(e) && (e.to.OldReopened? || (e.to.Unstarted? && (IsSettled(e.from) || e.from.Icebox?)))
  }

  predicate StartsWait(e: TaskEvent) {
    (e.kind.Awaiting? && e.flag == Some(true)) || (e.kind.Transition? && e.to.OldNeedsDecision?)
  }

  predicate EndsWait(e: TaskEvent) {
    (e.kind.Awaiting? && e.flag == Some(false)) ||
    (StateEvent(e) && e.from.OldNeedsDecision? && !e.to.OldNeedsDecision?)
  }

  ghost predicate InTimeOrder(events: seq<TaskEvent>) {
    forall i, j :: 0 <= i < j < |events| ==> events[i].at <= events[j].at
  }

  /** The classes of states: what is ready was not started, what is settled is neither, and
      every state of either vocabulary is where it should be. */
  lemma StateClasses(s: TaskState)
    ensures IsReady(s) <==> s in {Backlog, Unstarted, OldReopened}
    ensures IsStartEntry(s) <==> s in {OldClaimed, Researching, Developing}
    ensures IsReview(s) <==> s in {OldVerifying, Reviewing}
    ensures IsMerged(s) <==> s in {Merged, Deployed}
    ensures IsDropped(s) <==> s in {Dropped, Duplicate}
    ensures IsSettled(s) <==> s in {Merged, Deployed, Completed, Dropped, Duplicate}
  {}

  /** A reopen leads back to the old vocabulary's reopened state, or to unstarted from a settled
      state or the icebox; rows of other kinds never reopen. */
  lemma ReopenExactly(e: TaskEvent)
    ensures IsReopen(e) <==>
              && (e.kind == Untyped || e.kind == Transition)
              && (e.to == OldReopened
                  || (e.to == Unstarted && e.from in {Merged, Deployed, Completed, Dropped, Duplicate, Icebox}))
  {}
}
