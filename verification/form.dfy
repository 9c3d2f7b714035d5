/**
  The whole form state (`formState`): the wizard plus the three repeatable
  sections, the page-load sequence, the user actions that change the state,
  and submission with its summary.
 */
module Form {
  import opened FieldValidation
  import opened Wizard
  import opened Sections

  datatype FormState = FormState(
    wizard: WizardState,
    education: Section,
    organisation: Section,
    work: Section)

  function SectionOf(f: FormState, c: Category): (s: Section) {
    match c
    case Education => f.education
    case Organisation => f.organisation
    case Work => f.work
  }

  function WithSection(f: FormState, c: Category, s: Section): (f': FormState)
    ensures f'.wizard == f.wizard
    ensures SectionOf(f', c) == s
    ensures forall d :: d != c ==> SectionOf(f', d) == SectionOf(f, d)
  {
    match c
    case Education => f.(education := s)
    case Organisation => f.(organisation := s)
    case Work => f.(work := s)
  }

  lemma SectionsIgnoreWizard(f: FormState, w: WizardState)
    ensures forall c :: SectionOf(f.(wizard := w), c) == SectionOf(f, c)
  {
    forall c
      ensures SectionOf(f.(wizard := w), c) == SectionOf(f, c)
    {
      match c
      case Education =>
      case Organisation =>
      case Work =>
    }
  }

  /** The form with a new wizard state and the same sections. */
  function WithWizard(f: FormState, w: WizardState): (f': FormState)
    ensures f'.wizard == w
    ensures forall c :: SectionOf(f', c) == SectionOf(f, c)
  {
    SectionsIgnoreWizard(f, w);
    f.(wizard := w)
  }

  /** What every reachable state satisfies, whichever checkbox handler runs:
      a well-formed wizard, and each section in its slot keeping the section
      invariant. */
  ghost predicate Shape(f: FormState) {
    && Valid(f.wizard)
    && forall c :: SectionOf(f, c).category == c && Sections.Inv(SectionOf(f, c))
  }

  /** `Shape` plus the end-date rule of the ongoing checkbox in every section:
      what the corrected handler keeps and the handler as written does not. */
  ghost predicate Inv(f: FormState) {
    && Shape(f)
    && forall c :: OngoingInv(SectionOf(f, c))
  }

  /** Page load: the declared state, then one add in each section. */
  function Init(): (f: FormState)
    ensures Inv(f)
    ensures f.wizard.currentTab == 1
    ensures forall t :: IsTab(t) ==> !Done(f.wizard, t)
    ensures forall c :: |SectionOf(f, c).items| == 1 && |SectionOf(f, c).records| == 2
    ensures forall c :: SectionOf(f, c).items[0].index == 1 && SectionOf(f, c).items[0].removable
  {
    InitialSection(Education);
    InitialSection(Organisation);
    InitialSection(Work);
    FormState(Wizard.Init(), Add(Seed(Education)), Add(Seed(Organisation)), Add(Seed(Work)))
  }

  /** The user actions that change the state, other than submitting. */
  datatype Event =
    | TabClicked(tab: int)
    | PrevClicked
    | NextClicked
    | AddClicked(category: Category)
    | RemoveClicked(category: Category, pos: nat)
    | OngoingClicked(category: Category, pos: nat)
    | EndDateTyped(category: Category, pos: nat, value: string)

  /** Which ongoing-checkbox handler a click runs: the one `app.js` binds
      (`Sections.ClickOngoing`, which can reach another entry) or the
      corrected one that acts on the clicked entry (`Sections.ClickOngoingAt`). */
  datatype Handler = AsWritten | Corrected

  /** A wizard action on the wizard state; other actions leave it alone. */
  function WizardAction(w: WizardState, e: Event, page: seq<seq<Field>>): (w': WizardState)
    requires Valid(w) && |page| == TabCount
    ensures Valid(w')
    ensures !e.NextClicked? ==> w'.completed == w.completed
    ensures e.TabClicked? ==> w' == SwitchTab(w, e.tab)
    ensures e.PrevClicked? ==> w' == Prev(w)
    ensures e.NextClicked? ==> w' == Next(w, page).state
    ensures !(e.TabClicked? || e.PrevClicked? || e.NextClicked?) ==> w' == w
  {
    match e
    case TabClicked(t) => SwitchTab(w, t)
    case PrevClicked => Prev(w)
    case NextClicked => Next(w, page).state
    case _ => w
  }

  /** A section action on the section it names, with handler `h` for the
      ongoing checkbox; wizard actions leave the section alone. */
  function SectionAction(s: Section, e: Event, h: Handler): (s': Section)
    requires Sections.Inv(s)
    ensures Sections.Inv(s') && s'.category == s.category
    ensures e.AddClicked? ==> s' == Add(s)
    ensures e.RemoveClicked? ==> s' == Remove(s, e.pos)
    ensures e.OngoingClicked? && h == AsWritten ==> s' == ClickOngoing(s, e.pos)
    ensures e.OngoingClicked? && h == Corrected ==> s' == ClickOngoingAt(s, e.pos)
    ensures e.EndDateTyped? ==> s' == EditEndDate(s, e.pos, e.value)
    ensures e.TabClicked? || e.PrevClicked? || e.NextClicked? ==> s' == s
  {
    match e
    case AddClicked(_) =>
      AddPreservesInv(s);
      Add(s)
    case RemoveClicked(_, pos) =>
      RemovePreservesInv(s, pos);
      Remove(s, pos)
    case OngoingClicked(_, pos) =>
      if h == AsWritten then
        ClickOngoingPreservesInv(s, pos);
        ClickOngoing(s, pos)
      else
        ClickOngoingAtPreservesInv(s, pos);
        ClickOngoingAt(s, pos)
    case EndDateTyped(_, pos, v) =>
      EditEndDatePreservesInv(s, pos, v);
      EditEndDate(s, pos, v)
    case _ => s
  }

  /** One action, with `page` holding the controls of the four tabs at that moment. */
  function Step(f: FormState, e: Event, page: seq<seq<Field>>, h: Handler): (f': FormState)
    requires Shape(f) && |page| == TabCount
    ensures Shape(f')
    ensures !e.NextClicked? ==> f'.wizard.completed == f.wizard.completed
    ensures e.AddClicked? || e.RemoveClicked? || e.OngoingClicked? || e.EndDateTyped? ==>
              f'.wizard == f.wizard
    ensures e.TabClicked? || e.PrevClicked? || e.NextClicked? ==>
              forall c :: SectionOf(f', c) == SectionOf(f, c)
    ensures e.TabClicked? ==> f'.wizard == SwitchTab(f.wizard, e.tab)
    ensures e.PrevClicked? ==> f'.wizard == Prev(f.wizard)
    ensures e.NextClicked? ==> f'.wizard == Next(f.wizard, page).state
    ensures e.AddClicked? || e.RemoveClicked? || e.OngoingClicked? || e.EndDateTyped? ==>
              forall c :: c != e.category ==> SectionOf(f', c) == SectionOf(f, c)
    ensures e.AddClicked? ==> SectionOf(f', e.category) == Add(SectionOf(f, e.category))
    ensures e.RemoveClicked? ==> SectionOf(f', e.category) == Remove(SectionOf(f, e.category), e.pos)
    ensures e.OngoingClicked? && h == AsWritten ==>
              SectionOf(f', e.category) == ClickOngoing(SectionOf(f, e.category), e.pos)
    ensures e.OngoingClicked? && h == Corrected ==>
              SectionOf(f', e.category) == ClickOngoingAt(SectionOf(f, e.category), e.pos)
    ensures e.EndDateTyped? ==>
              SectionOf(f', e.category) == EditEndDate(SectionOf(f, e.category), e.pos, e.value)
  {
    if e.TabClicked? || e.PrevClicked? || e.NextClicked? then
      WithWizard(f, WizardAction(f.wizard, e, page))
    else
      var c := e.category;
      WithSection(f, c, SectionAction(SectionOf(f, c), e, h))
  }

  /** With the corrected handler every action keeps the end-date rule too. */
  lemma StepKeepsInv(f: FormState, e: Event, page: seq<seq<Field>>)
    requires Inv(f) && |page| == TabCount
    ensures Inv(Step(f, e, page, Corrected))
  {
    var f' := Step(f, e, page, Corrected);
    match e
    case TabClicked(_) =>
    case PrevClicked =>
    case NextClicked =>
    case AddClicked(c) =>
      AddKeepsOngoingInv(SectionOf(f, c));
    case RemoveClicked(c, pos) =>
      RemoveKeepsOngoingInv(SectionOf(f, c), pos);
    case OngoingClicked(c, pos) =>
      ClickOngoingAtKeepsOngoingInv(SectionOf(f, c), pos);
    case EndDateTyped(c, pos, v) =>
      EditEndDateKeepsOngoingInv(SectionOf(f, c), pos, v);
  }

  /** An action together with the tab contents it saw. */
  datatype Action = Action(event: Event, page: seq<seq<Field>>)

  ghost predicate WellFormedActions(actions: seq<Action>) {
    forall i :: 0 <= i < |actions| ==> |actions[i].page| == TabCount
  }

  lemma WellFormedTail(actions: seq<Action>)
    requires WellFormedActions(actions) && actions != []
    ensures WellFormedActions(actions[1..])
  {
    forall i | 0 <= i < |actions| - 1
      ensures |actions[1..][i].page| == TabCount
    {
      assert actions[1..][i] == actions[i + 1];
    }
  }

  /** A session: the actions applied in order. */
  function Run(f: FormState, actions: seq<Action>, h: Handler): (f': FormState)
    requires Shape(f) && WellFormedActions(actions)
    decreases |actions|
  {
    if actions == [] then f
    else
      WellFormedTail(actions);
      Run(Step(f, actions[0].event, actions[0].page, h), actions[1..], h)
  }

  /** Every session keeps the shape, with either handler, so also with the
      code as written: the current tab stays within 1..4 and every array
      stays one longer than the list of entries shown. */
  lemma {:induction false} RunKeepsShape(f: FormState, actions: seq<Action>, h: Handler)
    requires Shape(f) && WellFormedActions(actions)
    ensures Shape(Run(f, actions, h))
    ensures IsTab(Run(f, actions, h).wizard.currentTab)
    ensures forall c :: |SectionOf(Run(f, actions, h), c).records| == |SectionOf(Run(f, actions, h), c).items| + 1
    decreases |actions|
  {
    if actions != [] {
      WellFormedTail(actions);
      RunKeepsShape(Step(f, actions[0].event, actions[0].page, h), actions[1..], h);
    }
  }

  /** Every session with the corrected handler also keeps the end-date rule: a
      checked ongoing box always comes with an empty, locked end date. */
  lemma {:induction false} RunKeepsInv(f: FormState, actions: seq<Action>)
    requires Inv(f) && WellFormedActions(actions)
    ensures Inv(Run(f, actions, Corrected))
    ensures forall c :: OngoingInv(SectionOf(Run(f, actions, Corrected), c))
    decreases |actions|
  {
    if actions != [] {
      WellFormedTail(actions);
      StepKeepsInv(f, actions[0].event, actions[0].page);
      RunKeepsInv(Step(f, actions[0].event, actions[0].page, Corrected), actions[1..]);
    }
  }

  /** The five actions of the duplicate-number trace: add an organisation
      entry, remove the first, add another, type an end date into the second
      and tick its ongoing box. */
  function DuplicateKeySession(page: seq<seq<Field>>): (actions: seq<Action>)
    requires |page| == TabCount
    ensures |actions| == 5 && WellFormedActions(actions)
  {
    [ Action(AddClicked(Organisation), page),
      Action(RemoveClicked(Organisation, 0), page),
      Action(AddClicked(Organisation), page),
      Action(EndDateTyped(Organisation, 1, "2024-01-31"), page),
      Action(OngoingClicked(Organisation, 1), page) ]
  }

  /** A session of five actions is the five steps in order. */
  lemma RunFive(f: FormState, actions: seq<Action>, h: Handler)
    requires Shape(f) && WellFormedActions(actions) && |actions| == 5
    ensures var f1 := Step(f, actions[0].event, actions[0].page, h);
            var f2 := Step(f1, actions[1].event, actions[1].page, h);
            var f3 := Step(f2, actions[2].event, actions[2].page, h);
            var f4 := Step(f3, actions[3].event, actions[3].page, h);
            var f5 := Step(f4, actions[4].event, actions[4].page, h);
            Run(f, actions, h) == f5
  {
    var f1 := Step(f, actions[0].event, actions[0].page, h);
    var f2 := Step(f1, actions[1].event, actions[1].page, h);
    var f3 := Step(f2, actions[2].event, actions[2].page, h);
    var f4 := Step(f3, actions[3].event, actions[3].page, h);
    var f5 := Step(f4, actions[4].event, actions[4].page, h);
    assert actions[1..][1..] == actions[2..] && actions[2..][1..] == actions[3..];
    assert actions[3..][1..] == actions[4..] && actions[4..][1..] == [];
    assert Run(f4, actions[4..], h) == f5;
    assert Run(f3, actions[3..], h) == f5;
    assert Run(f2, actions[2..], h) == f5;
    assert Run(f1, actions[1..], h) == f5;
  }

  /** With the handler as written, the duplicate-number trace from page load
      breaks the end-date rule in the organisation section. */
  lemma AsWrittenSessionBreaksOngoing(page: seq<seq<Field>>)
    requires |page| == TabCount
    ensures !OngoingInv(SectionOf(Run(Init(), DuplicateKeySession(page), AsWritten), Organisation))
  {
    var actions := DuplicateKeySession(page);
    RunFive(Init(), actions, AsWritten);
    var f1 := Step(Init(), actions[0].event, page, AsWritten);
    var f2 := Step(f1, actions[1].event, page, AsWritten);
    var f3 := Step(f2, actions[2].event, page, AsWritten);
    var f4 := Step(f3, actions[3].event, page, AsWritten);
    var f5 := Step(f4, actions[4].event, page, AsWritten);
    assert SectionOf(f2, Organisation) == Remove(Add(Add(Seed(Organisation))), 0);
    assert SectionOf(f5, Organisation)
      == ClickOngoing(EditEndDate(Add(Remove(Add(Add(Seed(Organisation))), 0)), 1, "2024-01-31"), 1);
    DuplicateKeyBreaksOngoing();
  }

  // ---------------------------------------------------------------------------
  // Submission
  // ---------------------------------------------------------------------------

  /** The success dialog's content: three personal values read from the form
      and the number of entries shown in each section. */
  datatype Summary = Summary(
    name: string,
    email: string,
    phone: string,
    educationCount: nat,
    organisationCount: nat,
    workCount: nat)

  /** Builds the summary. The counts are those of the entries shown, which
      under the invariant is one less than each array's length. */
  function Assemble(f: FormState, name: string, email: string, phone: string): (s: Summary)
    ensures s.name == name && s.email == email && s.phone == phone
    ensures s.educationCount == |f.education.items|
    ensures s.organisationCount == |f.organisation.items|
    ensures s.workCount == |f.work.items|
    ensures Shape(f) ==>
              && s.educationCount == |f.education.records| - 1
              && s.organisationCount == |f.organisation.records| - 1
              && s.workCount == |f.work.records| - 1
  {
    assert Shape(f) ==> SectionOf(f, Education) == f.education && Sections.Inv(f.education);
    assert Shape(f) ==> SectionOf(f, Organisation) == f.organisation && Sections.Inv(f.organisation);
    assert Shape(f) ==> SectionOf(f, Work) == f.work && Sections.Inv(f.work);
    Summary(name, email, phone, |f.education.items|, |f.organisation.items|, |f.work.items|)
  }

  datatype SubmitResult = Accepted(summary: Summary) | Rejected

  datatype Submission = Submission(state: FormState, result: SubmitResult)

  /** The submit handler: validate all four tabs; show the summary iff all pass,
      otherwise the alert. */
  function SubmitForm(f: FormState, page: seq<seq<Field>>, name: string, email: string, phone: string): (r: Submission)
    requires Shape(f) && |page| == TabCount
    ensures Shape(r.state)
    ensures Inv(f) ==> Inv(r.state)
    ensures r.result.Accepted? <==> forall t :: IsTab(t) ==> TabOk(page, t)
    ensures forall t :: IsTab(t) ==> Done(r.state.wizard, t) == TabOk(page, t)
    ensures r.state.wizard.currentTab == f.wizard.currentTab
    ensures forall c :: SectionOf(r.state, c) == SectionOf(f, c)
    ensures r.result.Accepted? ==>
              && r.result.summary.educationCount == |f.education.items|
              && r.result.summary.organisationCount == |f.organisation.items|
              && r.result.summary.workCount == |f.work.items|
  {
    var o := Submit(f.wizard, page);
    var f' := WithWizard(f, o.state);
    assert f'.education == f.education && f'.organisation == f.organisation && f'.work == f.work;
    assert Shape(f');
    assert Inv(f) ==> Inv(f');
    if o.accepted then Submission(f', Accepted(Assemble(f', name, email, phone)))
    else Submission(f', Rejected)
  }
}
