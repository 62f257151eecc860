/** The confirmation controller (`useConfirm.js`) as a state machine. Each
    `confirm(...)` call creates a promise, identified here by a ticket
    number; the dialog state holds the ticket its confirm and cancel
    handlers resolve. A promise settles at most once: a later resolve of the
    same promise has no effect. */
module Confirm {
  import opened Wrappers

  /** The rendered dialog. `handler` is the ticket that `onConfirm` and
      `onCancel` resolve, `None` while both handlers are `null`. */
  datatype Dialog = Dialog(isOpen: bool, title: string, message: string, kind: string, handler: Option<nat>)

  /** The dialog, the number of promises created so far, and the value each
      settled promise resolved to. */
  datatype Controller = Controller(dialog: Dialog, issued: nat, resolved: map<nat, bool>)

  const DefaultKind: string := "danger"

  /** Closed, with empty text, the default kind and no handlers. */
  const Initial: Controller := Controller(Dialog(false, "", "", DefaultKind, None), 0, map[])

  /** The initial state is well formed and shows nothing. */
  lemma InitialIsClosed()
    ensures Valid(Initial)
    ensures !Initial.dialog.isOpen && Initial.dialog.handler.None?
    ensures Initial.dialog.title == "" && Initial.dialog.message == "" && Initial.dialog.kind == "danger"
  {
  }

  /** Every ticket mentioned was issued. */
  ghost predicate Valid(c: Controller) {
    && (forall t :: t in c.resolved ==> t < c.issued)
    && (c.dialog.handler.Some? ==> c.dialog.handler.value < c.issued)
  }

  /** `confirm({ title, message, type })`: the dialog is replaced wholesale
      by an open one whose handlers resolve a new promise; `kind` is `None`
      when `type` is left undefined. */
  function Request(c: Controller, title: string, message: string, kind: Option<string>): (r: Controller)
    ensures r.dialog.isOpen && r.dialog.title == title && r.dialog.message == message
    ensures r.dialog.kind == (if kind.Some? then kind.value else DefaultKind)
    ensures r.dialog.handler == Some(c.issued)
    ensures Valid(c) ==> c.issued !in r.resolved
    ensures r.resolved == c.resolved
    ensures Valid(c) ==> Valid(r)
  {
    Controller(Dialog(true, title, message, kind.GetOr(DefaultKind), Some(c.issued)), c.issued + 1, c.resolved)
  }

  /** `onConfirm` (answer true) or `onCancel` (answer false): close the
      dialog, then resolve the pending promise. Calling a `null` handler
      throws before anything changes. */
  function Settle(c: Controller, answer: bool): (r: Controller)
    ensures c.dialog.handler.None? ==> r == c
    ensures c.dialog.handler.Some? ==>
      && r.dialog == c.dialog.(isOpen := false)
      && r.issued == c.issued
      && c.dialog.handler.value in r.resolved
      && (c.dialog.handler.value !in c.resolved ==> r.resolved[c.dialog.handler.value] == answer)
      && (forall t :: t != c.dialog.handler.value ==> (t in r.resolved <==> t in c.resolved))
    ensures forall t :: t in c.resolved ==> t in r.resolved && r.resolved[t] == c.resolved[t]
    ensures Valid(c) ==> Valid(r)
  {
    match c.dialog.handler
    case None => c
    case Some(t) =>
      var resolved := if t in c.resolved then c.resolved else c.resolved[t := answer];
      Controller(c.dialog.(isOpen := false), c.issued, resolved)
  }

  /** `closeConfirm`: close the dialog without resolving anything. */
  function Close(c: Controller): (r: Controller)
    ensures r.dialog.isOpen == false
    ensures r.dialog.(isOpen := c.dialog.isOpen) == c.dialog
    ensures r.issued == c.issued && r.resolved == c.resolved
  {
    c.(dialog := c.dialog.(isOpen := false))
  }

  datatype Event =
    | Ask(title: string, message: string, kind: Option<string>)
    | Accept
    | Decline
    | Dismiss

  function Step(c: Controller, e: Event): Controller {
    match e
    case Ask(title, message, kind) => Request(c, title, message, kind)
    case Accept => Settle(c, true)
    case Decline => Settle(c, false)
    case Dismiss => Close(c)
  }

  /** The controller after a sequence of events. */
  function Run(c: Controller, es: seq<Event>): Controller
    decreases |es|
  {
    if es == [] then c else Run(Step(c, es[0]), es[1..])
  }

  /** Every sequence of events keeps the controller well formed. */
  lemma {:induction false} RunPreservesValid(c: Controller, es: seq<Event>)
    requires Valid(c)
    ensures Valid(Run(c, es))
    decreases |es|
  {
    if es != [] {
      RunPreservesValid(Step(c, es[0]), es[1..]);
    }
  }

  /** Once a promise has settled, no later event changes its value. */
  lemma {:induction false} SettledIsFinal(c: Controller, es: seq<Event>, t: nat)
    requires t in c.resolved
    ensures t in Run(c, es).resolved && Run(c, es).resolved[t] == c.resolved[t]
    decreases |es|
  {
    if es != [] {
      SettledIsFinal(Step(c, es[0]), es[1..], t);
    }
  }

  /** A promise that is pending but no longer held by the dialog's handlers
      never settles, whatever happens next. */
  lemma {:induction false} OrphanNeverSettles(c: Controller, es: seq<Event>, t: nat)
    requires t < c.issued && t !in c.resolved && c.dialog.handler != Some(t)
    ensures t !in Run(c, es).resolved
    decreases |es|
  {
    if es != [] {
      OrphanNeverSettles(Step(c, es[0]), es[1..], t);
    }
  }

  /** A second `confirm` before the first is answered abandons the first
      promise: it is never resolved, so its caller never resumes. */
  lemma SecondRequestOrphansFirst(c: Controller, t1: string, m1: string, k1: Option<string>,
                                  t2: string, m2: string, k2: Option<string>, es: seq<Event>)
    requires Valid(c)
    ensures c.issued !in Run(Request(Request(c, t1, m1, k1), t2, m2, k2), es).resolved
  {
    OrphanNeverSettles(Request(Request(c, t1, m1, k1), t2, m2, k2), es, c.issued);
  }

  /** Dismissing the dialog leaves the pending promise unresolved, and a
      later answer still resolves it. */
  lemma DismissThenAnswer(c: Controller, answer: bool)
    requires c.dialog.handler.Some? && c.dialog.handler.value !in c.resolved
    ensures c.dialog.handler.value !in Close(c).resolved
    ensures Settle(Close(c), answer).resolved[c.dialog.handler.value] == answer
  {
  }

  /** From the initial state, a request followed by an answer resolves the
      first promise to that answer and leaves the dialog closed with its
      text intact. */
  lemma AskThenAnswer(title: string, message: string, kind: Option<string>, accept: bool)
    ensures var c := Run(Initial, [Ask(title, message, kind), if accept then Accept else Decline]);
      && c.resolved == map[0 := accept]
      && !c.dialog.isOpen && c.dialog.title == title && c.dialog.message == message
  {
    var c1 := Step(Initial, Ask(title, message, kind));
    var e := if accept then Accept else Decline;
    var es := [Ask(title, message, kind), e];
    assert es[1..] == [e];
    assert Run(Initial, es) == Run(c1, [e]);
    assert [e][1..] == [];
    assert Run(c1, [e]) == Run(Step(c1, e), []);
  }
}
