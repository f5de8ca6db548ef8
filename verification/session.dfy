/** The dashboard driven by a sequence of user events, one handler per event,
    and the invariant the handlers keep over any such sequence. */
module Session {
  import opened Wrappers
  import opened Document
  import opened Dashboard

  /** The user actions the dashboard's markup wires to a handler. */
  datatype Event =
    | TypeNew(field: Field, value: string)
    | TypeEdit(field: Field, value: string)
    | AddClicked
    | RemoveClicked(index: nat)
    | EditClicked(index: nat)
    | UpdateClicked
    | CancelClicked

  /** Applies one event. Only an Edit click on a position that holds no record
      has no successor state: every Edit button sits on an existing card. */
  function Step(s: State, e: Event): (r: Option<State>)
    ensures r.None? <==> e.EditClicked? && e.index >= |s.docs|
  {
    match e
    case TypeNew(f, v) => Some(Change(s, f, v))
    case TypeEdit(f, v) => Some(EditChange(s, f, v))
    case AddClicked => Some(Add(s))
    case RemoveClicked(i) => Some(Remove(s, i))
    case EditClicked(i) => if i < |s.docs| then Some(StartEdit(s, i)) else None
    case UpdateClicked => Some(Update(s))
    case CancelClicked => Some(Cancel(s))
  }

  /** Applies the events in order, stopping at the first one with no
      successor. */
  function Run(s: State, es: seq<Event>): (r: Option<State>)
    decreases |es|
  {
    if es == [] then Some(s)
    else
      match Step(s, es[0])
      case None => None
      case Some(t) => Run(t, es[1..])
  }

  /** Every stored record has a title and a description that are not all
      whitespace. */
  ghost predicate StoredFilled(s: State) {
    forall j :: 0 <= j < |s.docs| ==> Filled(s.docs[j])
  }

  /** Add only stores a draft that passed the guard. */
  lemma AddKeepsStoredFilled(s: State)
    requires StoredFilled(s)
    ensures StoredFilled(Add(s))
  {
  }

  /** Remove only drops records. */
  lemma RemoveKeepsStoredFilled(s: State, i: nat)
    requires StoredFilled(s)
    ensures StoredFilled(Remove(s, i))
  {
  }

  /** Update only stores an edit draft that passed the guard. */
  lemma UpdateKeepsStoredFilled(s: State)
    requires StoredFilled(s)
    ensures StoredFilled(Update(s))
  {
  }

  /** Every handler keeps the stored records filled in. */
  lemma StepKeepsStoredFilled(s: State, e: Event)
    requires StoredFilled(s)
    requires Step(s, e).Some?
    ensures StoredFilled(Step(s, e).value)
  {
    match e
    case AddClicked => AddKeepsStoredFilled(s);
    case RemoveClicked(i) => RemoveKeepsStoredFilled(s, i);
    case UpdateClicked => UpdateKeepsStoredFilled(s);
    case _ =>
  }

  /** Over any sequence of events the stored records stay filled in. */
  lemma {:induction false} RunKeepsStoredFilled(s: State, es: seq<Event>)
    requires StoredFilled(s)
    requires Run(s, es).Some?
    ensures StoredFilled(Run(s, es).value)
    decreases |es|
  {
    if es != [] {
      StepKeepsStoredFilled(s, es[0]);
      RunKeepsStoredFilled(Step(s, es[0]).value, es[1..]);
    }
  }

  /** From the state the component mounts with, no sequence of events ever
      stores a record with a blank title or description. */
  lemma NoBlankRecordIsStored(es: seq<Event>)
    requires Run(Init, es).Some?
    ensures StoredFilled(Run(Init, es).value)
  {
    RunKeepsStoredFilled(Init, es);
  }
}
