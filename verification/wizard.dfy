/**
  The tab wizard: which of the four tabs is shown, which tabs were found
  complete the last time they were validated, the transitions driven by the
  tab buttons, Prev, Next and submit, and the views derived from the state
  (completion count and status line, navigation buttons, progress).
 */
module Wizard {
  import opened FieldValidation
  import opened Decimal

  const TabCount: int := 4

  predicate IsTab(t: int) {
    1 <= t <= TabCount
  }

  /** `currentTab` and `completed` of the form state. The flag of tab `t`
      is `completed[t - 1]`. */
  datatype WizardState = WizardState(currentTab: int, completed: seq<bool>)

  /** The shape the state always has: a current tab among 1..4 and one
      completion flag per tab. */
  predicate Valid(w: WizardState) {
    IsTab(w.currentTab) && |w.completed| == TabCount
  }

  /** Whether tab `t` is flagged complete. */
  function Done(w: WizardState, t: int): bool
    requires Valid(w) && IsTab(t)
  {
    w.completed[t - 1]
  }

  /** The state with the flag of tab `t` set to `ok`. */
  function Record(w: WizardState, t: int, ok: bool): (w': WizardState)
    requires Valid(w) && IsTab(t)
    ensures Valid(w') && w'.currentTab == w.currentTab
    ensures Done(w', t) == ok
    ensures forall u :: IsTab(u) && u != t ==> Done(w', u) == Done(w, u)
  {
    w.(completed := w.completed[t - 1 := ok])
  }

  /** The state at page load: tab 1 shown, no tab complete. */
  function Init(): (w: WizardState)
    ensures Valid(w) && w.currentTab == 1
    ensures forall t :: IsTab(t) ==> !Done(w, t)
  {
    WizardState(1, [false, false, false, false])
  }

  // ---------------------------------------------------------------------------
  // Validating a tab
  // ---------------------------------------------------------------------------

  /** The controls of a tab that carry the `required` attribute, in document order. */
  function RequiredFields(fields: seq<Field>): (r: seq<Field>)
    ensures |r| <= |fields|
    ensures forall i :: 0 <= i < |r| ==> r[i].required
  {
    if fields == [] then []
    else if fields[0].required then [fields[0]] + RequiredFields(fields[1..])
    else RequiredFields(fields[1..])
  }

  /** Selection keeps document order: the required controls of two runs of
      controls are those of the first run followed by those of the second. */
  lemma {:induction false} RequiredFieldsAppend(a: seq<Field>, b: seq<Field>)
    ensures RequiredFields(a + b) == RequiredFields(a) + RequiredFields(b)
  {
    if a == [] {
      assert a + b == b;
    } else {
      assert (a + b)[0] == a[0] && (a + b)[1..] == a[1..] + b;
      RequiredFieldsAppend(a[1..], b);
    }
  }

  /** A single control is selected exactly when it is required. */
  lemma RequiredFieldsSingle(f: Field)
    ensures RequiredFields([f]) == (if f.required then [f] else [])
  {
    assert [f][1..] == [];
  }

  /** The required controls are exactly the controls of the tab that are required. */
  lemma {:induction false} RequiredFieldsMembers(fields: seq<Field>)
    ensures forall f :: f in RequiredFields(fields) <==> f in fields && f.required
  {
    if fields != [] {
      RequiredFieldsMembers(fields[1..]);
      assert forall f :: f in fields <==> f == fields[0] || f in fields[1..];
    }
  }

  /** Every required control passes `check`. */
  ghost predicate AllRequiredPass(check: Field -> Verdict, fields: seq<Field>) {
    forall i :: 0 <= i < |fields| && fields[i].required ==> check(fields[i]).valid
  }

  /** Reference meaning of a complete tab: every required control passes the
      field validator. */
  ghost predicate TabPasses(fields: seq<Field>) {
    AllRequiredPass(ValidateField, fields)
  }

  /** Tab `t` of the page passes. */
  ghost predicate TabOk(page: seq<seq<Field>>, t: int)
    requires 1 <= t <= |page|
  {
    TabPasses(page[t - 1])
  }

  /** Result of `validateTab`: the overall flag and the verdict shown on each
      required control. */
  datatype TabCheck = TabCheck(ok: bool, verdicts: seq<Verdict>)

  /** The `forEach` of `validateTab` with the per-field check as a parameter:
      every required control is checked, in order, none skipped after a failure. */
  function CheckRequired(check: Field -> Verdict, fields: seq<Field>): (c: TabCheck)
    ensures c.ok <==> AllRequiredPass(check, fields)
    ensures |c.verdicts| == |RequiredFields(fields)|
    ensures forall i :: 0 <= i < |c.verdicts| ==> c.verdicts[i] == check(RequiredFields(fields)[i])
  {
    if fields == [] then TabCheck(true, [])
    else
      var rest := CheckRequired(check, fields[1..]);
      assert forall i :: 1 <= i < |fields| ==> fields[1..][i - 1] == fields[i];
      if fields[0].required then
        var v := check(fields[0]);
        var c := TabCheck(v.valid && rest.ok, [v] + rest.verdicts);
        assert RequiredFields(fields) == [fields[0]] + RequiredFields(fields[1..]);
        c
      else rest
  }

  /** `validateTab`: validates every required control of the tab with the
      field validator and ignores the others. */
  function ValidateTab(fields: seq<Field>): (c: TabCheck)
    ensures c.ok <==> TabPasses(fields)
    ensures |c.verdicts| == |RequiredFields(fields)|
    ensures forall i :: 0 <= i < |c.verdicts| ==> c.verdicts[i] == ValidateField(RequiredFields(fields)[i])
  {
    CheckRequired(ValidateField, fields)
  }

  // ---------------------------------------------------------------------------
  // Transitions
  // ---------------------------------------------------------------------------

  /** `switchTab`: a direct jump, never gated by validation. For a number that
      names no tab the handler fails while looking up the tab's panel, before
      it touches the state, so the state is unchanged. */
  function SwitchTab(w: WizardState, n: int): (w': WizardState)
    ensures w'.completed == w.completed
    ensures IsTab(n) ==> w'.currentTab == n
    ensures !IsTab(n) ==> w' == w
    ensures Valid(w) ==> Valid(w')
  {
    if IsTab(n) then w.(currentTab := n) else w
  }

  /** The Prev button: back one tab unless already on the first. */
  function Prev(w: WizardState): (w': WizardState)
    ensures w'.completed == w.completed
    ensures w.currentTab > 1 && Valid(w) ==> w'.currentTab == w.currentTab - 1
    ensures w.currentTab <= 1 ==> w' == w
    ensures Valid(w) ==> Valid(w')
  {
    if w.currentTab > 1 then SwitchTab(w, w.currentTab - 1) else w
  }

  /** A transition's new state and whether the action went through; `accepted`
      is false exactly when the source shows its "please complete the required
      fields" alert. */
  datatype Outcome = Outcome(state: WizardState, accepted: bool)

  /** The Next button: validate the current tab and record the result; on
      success move one tab forward unless already on the last. `page[t - 1]`
      holds the controls of tab `t`. */
  function Next(w: WizardState, page: seq<seq<Field>>): (o: Outcome)
    requires Valid(w) && |page| == TabCount
    ensures Valid(o.state)
    ensures o.accepted <==> TabPasses(page[w.currentTab - 1])
    ensures Done(o.state, w.currentTab) == o.accepted
    ensures forall t :: IsTab(t) && t != w.currentTab ==> Done(o.state, t) == Done(w, t)
    ensures o.accepted && w.currentTab < TabCount ==> o.state.currentTab == w.currentTab + 1
    ensures !o.accepted || w.currentTab == TabCount ==> o.state.currentTab == w.currentTab
  {
    var ok := ValidateTab(page[w.currentTab - 1]).ok;
    var recorded := Record(w, w.currentTab, ok);
    if ok && w.currentTab < TabCount then Outcome(SwitchTab(recorded, w.currentTab + 1), true)
    else Outcome(recorded, ok)
  }

  /** The submit loop from tab `t` on: validates every tab `t..4` (none is
      skipped after a failure) and records each result. */
  function ValidateFrom(w: WizardState, page: seq<seq<Field>>, t: int): (o: Outcome)
    requires Valid(w) && |page| == TabCount && 1 <= t <= TabCount + 1
    ensures Valid(o.state) && o.state.currentTab == w.currentTab
    ensures forall u :: 1 <= u < t ==> Done(o.state, u) == Done(w, u)
    ensures forall u :: t <= u <= TabCount ==> Done(o.state, u) == TabOk(page, u)
    ensures o.accepted <==> forall u :: t <= u <= TabCount ==> TabOk(page, u)
    decreases TabCount + 1 - t
  {
    if t > TabCount then Outcome(w, true)
    else
      var ok := ValidateTab(page[t - 1]).ok;
      assert ok == TabOk(page, t);
      var rest := ValidateFrom(Record(w, t, ok), page, t + 1);
      Outcome(rest.state, ok && rest.accepted)
  }

  /** Form submission: validates all four tabs, records every flag, and
      succeeds iff all four pass. The shown tab does not change. */
  function Submit(w: WizardState, page: seq<seq<Field>>): (o: Outcome)
    requires Valid(w) && |page| == TabCount
    ensures Valid(o.state) && o.state.currentTab == w.currentTab
    ensures forall t :: IsTab(t) ==> Done(o.state, t) == TabOk(page, t)
    ensures o.accepted <==> forall t :: IsTab(t) ==> TabOk(page, t)
  {
    ValidateFrom(w, page, 1)
  }

  // ---------------------------------------------------------------------------
  // Derived views
  // ---------------------------------------------------------------------------

  /** Number of `true` entries. */
  function CountTrue(flags: seq<bool>): (n: nat)
    ensures n <= |flags|
    ensures n == multiset(flags)[true]
    ensures n == |flags| <==> forall i :: 0 <= i < |flags| ==> flags[i]
  {
    if flags == [] then 0
    else
      var rest := CountTrue(flags[1..]);
      assert flags == [flags[0]] + flags[1..];
      assert forall i :: 1 <= i < |flags| ==> flags[1..][i - 1] == flags[i];
      (if flags[0] then 1 else 0) + rest
  }

  /** The completion count of the status line: how many tabs are flagged complete. */
  function CompletedCount(w: WizardState): (n: nat)
    requires Valid(w)
    ensures n <= TabCount
    ensures n == multiset(w.completed)[true]
    ensures n == TabCount <==> forall t :: IsTab(t) ==> Done(w, t)
  {
    assert forall t :: IsTab(t) ==> Done(w, t) == w.completed[t - 1];
    assert forall i :: 0 <= i < TabCount ==> w.completed[i] == Done(w, i + 1);
    CountTrue(w.completed)
  }

  const AllCompleteText: string := "Semua data telah lengkap ✓"

  /** The completion status line: the "all complete" text when all four tabs
      are complete, otherwise "<count>/4 bagian selesai". */
  function CompletionStatus(w: WizardState): (s: string)
    requires Valid(w)
    ensures s == AllCompleteText <==> forall t :: IsTab(t) ==> Done(w, t)
    ensures CompletedCount(w) < TabCount ==> s == NatToString(CompletedCount(w)) + "/4 bagian selesai"
  {
    var n := CompletedCount(w);
    if n == TabCount then AllCompleteText
    else
      var s := NatToString(n) + "/4 bagian selesai";
      assert s[0] != AllCompleteText[0];
      s
  }

  /** What the navigation bar shows. */
  datatype NavButtons = NavButtons(prevDisabled: bool, nextShown: bool, submitShown: bool)

  /** `updateNavigationButtons`: Prev disabled on the first tab; on the last
      tab Submit replaces Next. */
  function Navigation(w: WizardState): (b: NavButtons)
    ensures b.submitShown <==> !b.nextShown
  {
    NavButtons(w.currentTab == 1, w.currentTab != TabCount, w.currentTab == TabCount)
  }

  /** Progress bar width in percent, `currentTab / 4 * 100` in exact arithmetic. */
  function Progress(w: WizardState): (p: int)
    ensures p * TabCount == w.currentTab * 100
    ensures Valid(w) ==> 25 <= p <= 100
  {
    w.currentTab * 25
  }

  // ---------------------------------------------------------------------------
  // Properties relating views and transitions
  // ---------------------------------------------------------------------------

  /** The Prev button is disabled exactly when pressing it would do nothing. */
  lemma PrevDisabledIffNoMove(w: WizardState)
    requires Valid(w)
    ensures Navigation(w).prevDisabled <==> Prev(w) == w
  {
  }

  /** On a tab that validates, Next is shown exactly when pressing it moves forward. */
  lemma NextShownIffNextMoves(w: WizardState, page: seq<seq<Field>>)
    requires Valid(w) && |page| == TabCount
    requires TabPasses(page[w.currentTab - 1])
    ensures Navigation(w).nextShown <==> Next(w, page).state.currentTab == w.currentTab + 1
  {
  }

  /** A successful submission leaves the status line at "all complete", and a
      failed one does not. */
  lemma SubmitAcceptedIffAllComplete(w: WizardState, page: seq<seq<Field>>)
    requires Valid(w) && |page| == TabCount
    ensures var o := Submit(w, page);
            o.accepted <==> CompletionStatus(o.state) == AllCompleteText
  {
  }

  /** Two well-formed states that show the same tab and agree on every flag are equal. */
  lemma StateExtensionality(a: WizardState, b: WizardState)
    requires Valid(a) && Valid(b) && a.currentTab == b.currentTab
    requires forall t :: IsTab(t) ==> Done(a, t) == Done(b, t)
    ensures a == b
  {
    assert forall i :: 0 <= i < TabCount ==> a.completed[i] == Done(a, i + 1) == Done(b, i + 1) == b.completed[i];
  }

  /** Submitting twice with the same field values gives the same state and verdict. */
  lemma SubmitIdempotent(w: WizardState, page: seq<seq<Field>>)
    requires Valid(w) && |page| == TabCount
    ensures Submit(Submit(w, page).state, page) == Submit(w, page)
  {
    var o := Submit(w, page);
    var o2 := Submit(o.state, page);
    StateExtensionality(o2.state, o.state);
  }
}
