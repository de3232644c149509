/** The page script templates/static/js/app.js as a transition system: the navigation
    toggle, and the guard that serialises score-form submissions with a page-wide lock,
    a delayed unlock and a permanent freeze once the match is over. The delayed unlock
    is an event of its own; the clock is not modelled. */
module PageScript {
  import opened Basics

  const UpdatingLabel: string := "Обновление..."
  const IdleLabel: string := "Score"
  const FinishedLabel: string := "Матч завершен"

  /** A score form's submit button: its `disabled` property, its text, and whether it
      carries the `data-permanently-disabled` attribute. */
  datatype Button = Button(disabled: bool, text: string, permanent: bool)

  /** What the script owns once the page is ready. `buttons[i]` is the submit button of
      the i-th score form (None when that form has none); `locked` is `formSubmitted`;
      `pendingUnlocks` counts unlock timers scheduled and not yet fired. */
  datatype Page = Page(
    navBound: bool,
    navActive: bool,
    buttons: seq<Option<Button>>,
    locked: bool,
    pendingUnlocks: nat)

  datatype Event = NavClick | Submit(form: nat) | UnlockFires

  /** What happens to a submit event: the handler cancels it, lets it through, or
      throws before touching anything (a form without a submit button), in which case
      the browser submits it anyway. */
  datatype SubmitVerdict = Cancelled | Accepted | HandlerThrew

  /** Every present button disabled, marked permanent and labelled as finished. */
  function Freeze(buttons: seq<Option<Button>>): (frozen: seq<Option<Button>>)
    ensures |frozen| == |buttons|
    ensures forall i :: 0 <= i < |buttons| ==>
              frozen[i] == (if buttons[i].None? then None else Some(Button(true, FinishedLabel, true)))
  {
    seq(|buttons|, i requires 0 <= i < |buttons| =>
      if buttons[i].None? then None else Some(Button(true, FinishedLabel, true)))
  }

  /** The `DOMContentLoaded` handler: binds the toggle only if both nav elements exist,
      starts unlocked, and freezes every button when the completed-match marker is
      present. */
  function Init(hasToggle: bool, hasMenu: bool, menuActive: bool, buttons: seq<Option<Button>>,
                matchCompleted: bool): (p: Page)
    ensures p.navBound <==> hasToggle && hasMenu
    ensures p.navActive == menuActive && !p.locked && p.pendingUnlocks == 0
    ensures |p.buttons| == |buttons|
    ensures !matchCompleted ==> p.buttons == buttons
    ensures matchCompleted ==> forall i :: 0 <= i < |buttons| ==>
              (buttons[i].None? ==> p.buttons[i].None?) &&
              (buttons[i].Some? ==> p.buttons[i] == Some(Button(true, FinishedLabel, true)))
  {
    Page(hasToggle && hasMenu, menuActive,
         if matchCompleted then Freeze(buttons) else buttons,
         false, 0)
  }

  /** The nav toggle's click handler: flips the menu's `active` class when bound. */
  function OnNavClick(p: Page): (q: Page)
    ensures p.navBound ==> q.navActive == !p.navActive
    ensures !p.navBound ==> q == p
    ensures q.(navActive := p.navActive) == p
  {
    if p.navBound then p.(navActive := !p.navActive) else p
  }

  /** How the submit handler treats a submit on form `i`. */
  function Verdict(p: Page, i: nat): (v: SubmitVerdict)
    requires i < |p.buttons|
    ensures v == HandlerThrew <==> p.buttons[i].None?
    ensures v == Accepted <==> p.buttons[i].Some? && !p.buttons[i].value.disabled && !p.locked
  {
    match p.buttons[i]
    case None => HandlerThrew
    case Some(b) => if b.disabled || p.locked then Cancelled else Accepted
  }

  /** What an accepted submit does to the buttons: all disabled, the originating one
      relabelled. */
  function DisableAll(buttons: seq<Option<Button>>, origin: nat): (out: seq<Option<Button>>)
    requires origin < |buttons| && buttons[origin].Some?
    ensures |out| == |buttons|
    ensures forall j :: 0 <= j < |buttons| ==> (out[j].Some? <==> buttons[j].Some?)
    ensures forall j :: 0 <= j < |buttons| && buttons[j].Some? ==>
              && out[j].value.disabled
              && out[j].value.permanent == buttons[j].value.permanent
              && out[j].value.text == (if j == origin then UpdatingLabel else buttons[j].value.text)
  {
    seq(|buttons|, j requires 0 <= j < |buttons| =>
      if buttons[j].None? then None
      else if j == origin then Some(buttons[j].value.(disabled := true, text := UpdatingLabel))
      else Some(buttons[j].value.(disabled := true)))
  }

  /** The submit handler of form `i`. */
  function OnSubmit(p: Page, i: nat): (q: Page)
    requires i < |p.buttons|
    ensures Verdict(p, i) != Accepted ==> q == p
    ensures Verdict(p, i) == Accepted ==>
              && q.locked
              && q.pendingUnlocks == p.pendingUnlocks + 1
              && q.navBound == p.navBound && q.navActive == p.navActive
              && q.buttons == DisableAll(p.buttons, i)
  {
    if Verdict(p, i) == Accepted then
      p.(buttons := DisableAll(p.buttons, i), locked := true, pendingUnlocks := p.pendingUnlocks + 1)
    else
      p
  }

  /** What the unlock timer does to the buttons: every present button without the
      permanent marker is enabled and relabelled; marked ones are untouched. */
  function Release(buttons: seq<Option<Button>>): (out: seq<Option<Button>>)
    ensures |out| == |buttons|
    ensures forall j :: 0 <= j < |buttons| ==> (out[j].Some? <==> buttons[j].Some?)
    ensures forall j :: 0 <= j < |buttons| && buttons[j].Some? && buttons[j].value.permanent ==>
              out[j] == buttons[j]
    ensures forall j :: 0 <= j < |buttons| && buttons[j].Some? && !buttons[j].value.permanent ==>
              out[j] == Some(Button(false, IdleLabel, false))
  {
    seq(|buttons|, j requires 0 <= j < |buttons| =>
      if buttons[j].None? || buttons[j].value.permanent then buttons[j]
      else Some(Button(false, IdleLabel, false)))
  }

  /** The unlock timer firing: the lock is cleared unconditionally and the buttons released. */
  function OnUnlock(p: Page): (q: Page)
    requires p.pendingUnlocks > 0
    ensures !q.locked && q.pendingUnlocks == p.pendingUnlocks - 1
    ensures q.buttons == Release(p.buttons)
    ensures q.navBound == p.navBound && q.navActive == p.navActive
  {
    p.(buttons := Release(p.buttons), locked := false, pendingUnlocks := p.pendingUnlocks - 1)
  }

  /** One event. A submit on a form the page does not have, or an unlock with no timer
      scheduled, cannot occur; the model lets them change nothing. */
  function Step(p: Page, e: Event): (q: Page)
    ensures e == NavClick ==> q == OnNavClick(p)
    ensures e.Submit? && e.form < |p.buttons| ==> q == OnSubmit(p, e.form)
    ensures e == UnlockFires && p.pendingUnlocks > 0 ==> q == OnUnlock(p)
    ensures |q.buttons| == |p.buttons| && q.navBound == p.navBound
    ensures e.Submit? && e.form >= |p.buttons| ==> q == p
    ensures e == UnlockFires && p.pendingUnlocks == 0 ==> q == p
    ensures e != NavClick ==> q.navActive == p.navActive
    ensures e == NavClick ==> q.buttons == p.buttons && q.locked == p.locked && q.pendingUnlocks == p.pendingUnlocks
  {
    match e
    case NavClick => OnNavClick(p)
    case Submit(i) => if i < |p.buttons| then OnSubmit(p, i) else p
    case UnlockFires => if p.pendingUnlocks > 0 then OnUnlock(p) else p
  }

  function Run(p: Page, events: seq<Event>): (q: Page)
    ensures |q.buttons| == |p.buttons| && q.navBound == p.navBound
    ensures (forall k :: 0 <= k < |events| ==> events[k] == NavClick) ==>
              q.buttons == p.buttons && q.locked == p.locked && q.pendingUnlocks == p.pendingUnlocks
    decreases |events|
  {
    if |events| == 0 then p else Run(Step(p, events[0]), events[1..])
  }

  // ---------------------------------------------------------------------------
  // Properties of every run.

  /** The lock is held exactly while one unlock timer is pending, never more than one is,
      and while it is held no button can be pressed. */
  predicate GuardInvariant(p: Page) {
    && p.pendingUnlocks <= 1
    && (p.locked <==> p.pendingUnlocks == 1)
    && (p.locked ==> forall j :: 0 <= j < |p.buttons| && p.buttons[j].Some? ==> p.buttons[j].value.disabled)
  }

  lemma StepKeepsGuardInvariant(p: Page, e: Event)
    requires GuardInvariant(p)
    ensures GuardInvariant(Step(p, e))
    ensures |Step(p, e).buttons| == |p.buttons|
  {
  }

  /** Whatever the user and the timers do, at most one unlock is pending, the lock is
      held exactly while it is, and a locked page has every button disabled. */
  lemma {:induction false} RunKeepsGuardInvariant(p: Page, events: seq<Event>)
    requires GuardInvariant(p)
    ensures GuardInvariant(Run(p, events))
    decreases |events|
  {
    if |events| > 0 {
      StepKeepsGuardInvariant(p, events[0]);
      RunKeepsGuardInvariant(Step(p, events[0]), events[1..]);
    }
  }

  lemma InitSatisfiesGuardInvariant(hasToggle: bool, hasMenu: bool, menuActive: bool,
                                    buttons: seq<Option<Button>>, matchCompleted: bool)
    ensures GuardInvariant(Init(hasToggle, hasMenu, menuActive, buttons, matchCompleted))
  {
  }

  /** While the lock is held, every submit is cancelled or throws; none goes through. */
  lemma LockedPageAcceptsNothing(p: Page, i: nat)
    requires GuardInvariant(p) && p.locked && i < |p.buttons|
    ensures Verdict(p, i) != Accepted
    ensures OnSubmit(p, i) == p
  {
  }

  predicate FrozenAt(p: Page, i: nat) {
    i < |p.buttons| && p.buttons[i].Some? && p.buttons[i].value.permanent && p.buttons[i].value.disabled
  }

  lemma StepKeepsFrozenButton(p: Page, e: Event, i: nat)
    requires FrozenAt(p, i)
    ensures |Step(p, e).buttons| == |p.buttons|
    ensures Step(p, e).buttons[i] == p.buttons[i]
  {
  }

  /** A disabled button with the permanent marker is never changed again, whatever
      events follow: it stays disabled, marked and with its label. */
  lemma {:induction false} FrozenButtonStaysFrozen(p: Page, events: seq<Event>, i: nat)
    requires FrozenAt(p, i)
    ensures |Run(p, events).buttons| == |p.buttons|
    ensures Run(p, events).buttons[i] == p.buttons[i]
    decreases |events|
  {
    if |events| > 0 {
      StepKeepsFrozenButton(p, events[0], i);
      FrozenButtonStaysFrozen(Step(p, events[0]), events[1..], i);
    }
  }

  /** On a page loaded with the completed-match marker no submit is ever accepted: the
      buttons stay frozen, the lock is never taken and no unlock is ever scheduled. */
  lemma {:induction false} CompletedPageStaysFrozen(hasToggle: bool, hasMenu: bool, menuActive: bool,
                                                    buttons: seq<Option<Button>>, events: seq<Event>)
    ensures var p := Init(hasToggle, hasMenu, menuActive, buttons, true);
            && Run(p, events).buttons == p.buttons
            && !Run(p, events).locked
            && Run(p, events).pendingUnlocks == 0
  {
    var p := Init(hasToggle, hasMenu, menuActive, buttons, true);
    AllFrozenStaysFrozen(p, events);
  }

  predicate AllFrozen(p: Page) {
    && !p.locked && p.pendingUnlocks == 0
    && forall j :: 0 <= j < |p.buttons| && p.buttons[j].Some? ==>
         p.buttons[j].value.permanent && p.buttons[j].value.disabled
  }

  lemma {:induction false} AllFrozenStaysFrozen(p: Page, events: seq<Event>)
    requires AllFrozen(p)
    ensures Run(p, events).buttons == p.buttons
    ensures AllFrozen(Run(p, events))
    decreases |events|
  {
    if |events| > 0 {
      var q := Step(p, events[0]);
      assert q.buttons == p.buttons && AllFrozen(q);
      AllFrozenStaysFrozen(q, events[1..]);
    }
  }

  function NavClicks(events: seq<Event>): nat {
    if |events| == 0 then 0 else (if events[0] == NavClick then 1 else 0) + NavClicks(events[1..])
  }

  /** The menu ends active after an odd number of clicks on a bound toggle iff it started
      inactive; an unbound toggle never changes it. */
  lemma {:induction false} NavActiveFollowsClickParity(p: Page, events: seq<Event>)
    ensures Run(p, events).navBound == p.navBound
    ensures Run(p, events).navActive ==
              if p.navBound && NavClicks(events) % 2 == 1 then !p.navActive else p.navActive
    decreases |events|
  {
    if |events| > 0 {
      NavActiveFollowsClickParity(Step(p, events[0]), events[1..]);
    }
  }

  /** Three forms, no completion marker, a submit on the second: all three are disabled
      at once with only the second relabelled; when the unlock fires all three read
      "Score" and are enabled again. */
  lemma ThreeFormScenario()
    ensures var idle := Some(Button(false, IdleLabel, false));
            var p0 := Init(true, true, false, [idle, idle, idle], false);
            var p1 := Step(p0, Submit(1));
            var p2 := Step(p1, UnlockFires);
            && p1.buttons == [Some(Button(true, IdleLabel, false)), Some(Button(true, UpdatingLabel, false)),
                              Some(Button(true, IdleLabel, false))]
            && p1.locked
            && p2.buttons == [idle, idle, idle]
            && !p2.locked
  {
    var idle := Some(Button(false, IdleLabel, false));
    var p0 := Init(true, true, false, [idle, idle, idle], false);
    var p1 := Step(p0, Submit(1));
    assert p1.buttons == [Some(Button(true, IdleLabel, false)), Some(Button(true, UpdatingLabel, false)),
                          Some(Button(true, IdleLabel, false))];
    var p2 := Step(p1, UnlockFires);
    assert p2.buttons == [idle, idle, idle];
  }
}
