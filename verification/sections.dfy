/**
  The repeatable sections (education, organisation, work history). Each is
  modelled as the code keeps it: the `formState` array of empty records, and
  beside it the list of entries shown on the page. The three sections share
  one algorithm and differ only in the title prefix and in whether an entry
  has an "ongoing" checkbox.

  Each shown entry carries two numbers:
  - `index`, the `data-index` attribute: set to the array length when the
    entry is added and rewritten to the entry's position whenever an entry
    is removed. Remove splices the array at this number.
  - `key`, the same array length, baked into the entry's control names, ids
    and the `onchange` handler of its checkbox. It is never rewritten.
 */
module Sections {
  import opened Decimal

  datatype Category = Education | Organisation | Work

  /** The title prefix of an entry. */
  function Prefix(c: Category): string {
    match c
    case Education => "Pendidikan"
    case Organisation => "Organisasi"
    case Work => "Pengalaman Kerja"
  }

  /** Organisation and work entries have an "ongoing" checkbox; education entries do not. */
  predicate HasOngoing(c: Category) {
    c != Education
  }

  /** Title shown for an entry with `data-index` `index`: "<prefix> #<index + 1>". */
  function Title(c: Category, index: nat): string {
    Prefix(c) + " #" + NatToString(index + 1)
  }

  /** An element of the `formState` array. The code only ever pushes `{}`. */
  datatype Record = Record(fields: map<string, string>)

  const EmptyRecord: Record := Record(map[])

  /** One entry shown on the page: its two numbers, its title, whether it has a
      remove control, and the state of its ongoing checkbox and end-date input. */
  datatype Item = Item(
    index: nat,
    key: nat,
    title: string,
    removable: bool,
    ongoing: bool,
    endDate: string,
    endDateDisabled: bool)

  datatype Section = Section(category: Category, records: seq<Record>, items: seq<Item>)

  /** The array as declared in `formState`, `[{}]`, before any entry is shown. */
  function Seed(c: Category): (s: Section)
    ensures s.category == c && s.records == [EmptyRecord] && s.items == []
  {
    Section(c, [EmptyRecord], [])
  }

  /** The same entry: everything but its `data-index` and title agree. */
  predicate SameEntry(a: Item, b: Item) {
    && a.key == b.key
    && a.removable == b.removable
    && a.ongoing == b.ongoing
    && a.endDate == b.endDate
    && a.endDateDisabled == b.endDateDisabled
  }

  // ---------------------------------------------------------------------------
  // Add, remove, renumber
  // ---------------------------------------------------------------------------

  /** The add button: a new entry whose number is the array length before the
      push, titled "#number+1", with a remove control iff that number is
      positive; then one empty record is pushed onto the array. */
  function Add(s: Section): (s': Section)
    ensures s'.category == s.category
    ensures |s'.records| == |s.records| + 1
    ensures s'.records[..|s.records|] == s.records && s'.records[|s.records|] == EmptyRecord
    ensures |s'.items| == |s.items| + 1 && s'.items[..|s.items|] == s.items
    ensures var it := s'.items[|s.items|];
            && it.index == |s.records| && it.key == |s.records|
            && it.title == Title(s.category, |s.records|)
            && (it.removable <==> |s.records| > 0)
            && !it.ongoing && it.endDate == [] && !it.endDateDisabled
  {
    var n := |s.records|;
    var it := Item(n, n, Title(s.category, n), n > 0, false, "", false);
    s.(records := s.records + [EmptyRecord], items := s.items + [it])
  }

  /** `Array.prototype.splice(start, 1)`: removes the element at `start`, or
      nothing when `start` is past the end. */
  function Splice<T>(s: seq<T>, start: nat): (r: seq<T>)
    ensures start < |s| ==> |r| == |s| - 1
    ensures start >= |s| ==> r == s
    ensures forall k :: 0 <= k < start && k < |r| ==> r[k] == s[k]
    ensures forall k :: start <= k < |r| ==> r[k] == s[k + 1]
  {
    if start < |s| then s[..start] + s[start + 1..] else s
  }

  /** Renumbering after a removal: each shown entry's `data-index` becomes its
      position and its title "#position+1"; nothing else about it changes. */
  function Renumber(c: Category, items: seq<Item>): (r: seq<Item>)
    ensures |r| == |items|
    ensures forall p :: 0 <= p < |r| ==>
              r[p].index == p && r[p].title == Title(c, p) && SameEntry(r[p], items[p])
  {
    seq(|items|, p requires 0 <= p < |items| => items[p].(index := p, title := Title(c, p)))
  }

  /** The remove control of the entry at position `pos`: the entry leaves the
      page, the array is spliced at the entry's `data-index`, and the rest are
      renumbered. Entries without a remove control cannot be removed. */
  function Remove(s: Section, pos: nat): (s': Section)
    ensures s'.category == s.category
    ensures !(pos < |s.items| && s.items[pos].removable) ==> s' == s
    ensures pos < |s.items| && s.items[pos].removable ==>
              && s'.records == Splice(s.records, s.items[pos].index)
              && |s'.items| == |s.items| - 1
              && (forall p :: 0 <= p < pos ==> SameEntry(s'.items[p], s.items[p]))
              && (forall p :: pos <= p < |s'.items| ==> SameEntry(s'.items[p], s.items[p + 1]))
              && (forall p :: 0 <= p < |s'.items| ==>
                    s'.items[p].index == p && s'.items[p].title == Title(s.category, p))
  {
    if pos < |s.items| && s.items[pos].removable then
      var rest := s.items[..pos] + s.items[pos + 1..];
      assert forall p :: 0 <= p < pos ==> rest[p] == s.items[p];
      assert forall p :: pos <= p < |rest| ==> rest[p] == s.items[p + 1];
      s.(records := Splice(s.records, s.items[pos].index), items := Renumber(s.category, rest))
    else s
  }

  // ---------------------------------------------------------------------------
  // The ongoing checkbox and the end date
  // ---------------------------------------------------------------------------

  /** Position of the first shown entry with this key (document order), or
      `|items|` when there is none: what `querySelector` and `getElementById`
      find for a name or id built from the key. */
  function FirstWithKey(items: seq<Item>, key: nat): (q: nat)
    ensures q <= |items|
    ensures q < |items| ==> items[q].key == key
    ensures forall p :: 0 <= p < q ==> items[p].key != key
  {
    if items == [] then 0
    else if items[0].key == key then 0
    else 1 + FirstWithKey(items[1..], key)
  }

  /** The end-date rule for one entry: a checked box clears and locks the end
      date; an unchecked box unlocks it and restores nothing. */
  function ApplyOngoing(it: Item): (r: Item)
    ensures SameEntry(r, it.(endDate := r.endDate, endDateDisabled := r.endDateDisabled))
    ensures r.index == it.index && r.title == it.title
    ensures it.ongoing ==> r.endDate == [] && r.endDateDisabled
    ensures !it.ongoing ==> r.endDate == it.endDate && !r.endDateDisabled
  {
    if it.ongoing then it.(endDateDisabled := true, endDate := "") else it.(endDateDisabled := false)
  }

  /** `toggleOrganizationEndDate(key)` / `toggleWorkEndDate(key)`: reads the
      first checkbox named after `key` and applies the rule to the first
      end-date input with that id; every other entry is untouched. */
  function ToggleEndDate(s: Section, key: nat): (s': Section)
    ensures s'.category == s.category && s'.records == s.records
    ensures |s'.items| == |s.items|
    ensures var q := FirstWithKey(s.items, key);
            forall p :: 0 <= p < |s.items| && p != q ==> s'.items[p] == s.items[p]
    ensures var q := FirstWithKey(s.items, key);
            q < |s.items| ==> s'.items[q] == ApplyOngoing(s.items[q])
  {
    var q := FirstWithKey(s.items, key);
    if q == |s.items| then s
    else s.(items := s.items[q := ApplyOngoing(s.items[q])])
  }

  /** The first entry with a key depends only on the entries' keys. */
  lemma FirstWithKeyOnlyKeys(a: seq<Item>, b: seq<Item>, key: nat)
    requires |a| == |b|
    requires forall p :: 0 <= p < |a| ==> a[p].key == b[p].key
    ensures FirstWithKey(a, key) == FirstWithKey(b, key)
  {
    if a != [] && a[0].key != key {
      FirstWithKeyOnlyKeys(a[1..], b[1..], key);
    }
  }

  /** A click on the ongoing checkbox of the entry at `pos`, as written: the
      browser flips that checkbox, then the handler bound with the entry's key
      runs. That handler acts on the first entry carrying the key, which is the
      clicked entry or one before it. Education entries have no such checkbox. */
  function ClickOngoing(s: Section, pos: nat): (s': Section)
    ensures s'.category == s.category && s'.records == s.records
    ensures |s'.items| == |s.items|
    ensures !(HasOngoing(s.category) && pos < |s.items|) ==> s' == s
    ensures HasOngoing(s.category) && pos < |s.items| ==>
              var q := FirstWithKey(s.items, s.items[pos].key);
              var flipped := s.items[pos].(ongoing := !s.items[pos].ongoing);
              && q <= pos
              && (forall p :: 0 <= p < |s.items| && p != pos && p != q ==> s'.items[p] == s.items[p])
              && (q == pos ==> s'.items[pos] == ApplyOngoing(flipped))
              && (q < pos ==> s'.items[q] == ApplyOngoing(s.items[q]) && s'.items[pos] == flipped)
  {
    if !HasOngoing(s.category) || pos >= |s.items| then s
    else
      var flipped := s.items[pos].(ongoing := !s.items[pos].ongoing);
      var t := s.(items := s.items[pos := flipped]);
      FirstWithKeyOnlyKeys(t.items, s.items, s.items[pos].key);
      ToggleEndDate(t, s.items[pos].key)
  }

  /** The evidently intended click: the rule applies to the clicked entry itself. */
  function ClickOngoingAt(s: Section, pos: nat): (s': Section)
    ensures s'.category == s.category && s'.records == s.records
    ensures |s'.items| == |s.items|
    ensures forall p :: 0 <= p < |s.items| && p != pos ==> s'.items[p] == s.items[p]
    ensures !(HasOngoing(s.category) && pos < |s.items|) ==> s' == s
    ensures HasOngoing(s.category) && pos < |s.items| ==>
              s'.items[pos] == ApplyOngoing(s.items[pos].(ongoing := !s.items[pos].ongoing))
  {
    if !HasOngoing(s.category) || pos >= |s.items| then s
    else s.(items := s.items[pos := ApplyOngoing(s.items[pos].(ongoing := !s.items[pos].ongoing))])
  }

  /** The user types into the end date of the entry at `pos`; a disabled input
      takes no input, and education entries have no end-date input. */
  function EditEndDate(s: Section, pos: nat, value: string): (s': Section)
    ensures s'.category == s.category && s'.records == s.records
    ensures |s'.items| == |s.items|
    ensures forall p :: 0 <= p < |s.items| && p != pos ==> s'.items[p] == s.items[p]
    ensures HasOngoing(s.category) && pos < |s.items| && !s.items[pos].endDateDisabled ==>
              s'.items[pos].endDate == value
    ensures pos < |s.items| ==>
              s'.items[pos] == s.items[pos].(endDate := s'.items[pos].endDate)
    ensures !HasOngoing(s.category) || (pos < |s.items| && s.items[pos].endDateDisabled) ==> s' == s
  {
    if HasOngoing(s.category) && pos < |s.items| && !s.items[pos].endDateDisabled then
      s.(items := s.items[pos := s.items[pos].(endDate := value)])
    else s
  }

  // ---------------------------------------------------------------------------
  // Invariants
  // ---------------------------------------------------------------------------

  /** What the code maintains: the array is one longer than the list of shown
      entries (it is seeded with `{}` before the first add), each entry's
      `data-index` is its position or one more, and its title matches its
      `data-index`. */
  ghost predicate Inv(s: Section) {
    && |s.records| == |s.items| + 1
    && forall p :: 0 <= p < |s.items| ==>
         && p <= s.items[p].index <= p + 1
         && s.items[p].title == Title(s.category, s.items[p].index)
  }

  /** What an ongoing checkbox is meant to guarantee: a checked entry has an
      empty, locked end date, and an unchecked one an unlocked end date. */
  ghost predicate OngoingInv(s: Section) {
    forall p :: 0 <= p < |s.items| ==>
      if s.items[p].ongoing then s.items[p].endDate == [] && s.items[p].endDateDisabled
      else !s.items[p].endDateDisabled
  }

  /** No two shown entries share a key. */
  ghost predicate UniqueKeys(s: Section) {
    forall p, q :: 0 <= p < q < |s.items| ==> s.items[p].key != s.items[q].key
  }

  /** Page load: the seeded array and one add. The first entry shown is number 1,
      titled "#2", and has a remove control; the array has two records. */
  lemma InitialSection(c: Category)
    ensures var s := Add(Seed(c));
            && Inv(s) && OngoingInv(s) && UniqueKeys(s)
            && |s.records| == 2 && |s.items| == 1
            && s.items[0].index == 1 && s.items[0].removable
            && s.items[0].title == Prefix(c) + " #2"
  {
    assert NatToString(2) == "2";
  }

  lemma AddPreservesInv(s: Section)
    requires Inv(s)
    ensures Inv(Add(s))
  {
  }

  /** Under the invariant a removal always splices inside the array, so the
      array loses exactly one record and stays one longer than the list. */
  lemma RemovePreservesInv(s: Section, pos: nat)
    requires Inv(s)
    ensures Inv(Remove(s, pos))
    ensures pos < |s.items| && s.items[pos].removable ==>
              |Remove(s, pos).records| == |s.records| - 1
  {
  }

  lemma ClickOngoingPreservesInv(s: Section, pos: nat)
    requires Inv(s)
    ensures Inv(ClickOngoing(s, pos))
  {
  }

  lemma ClickOngoingAtPreservesInv(s: Section, pos: nat)
    requires Inv(s)
    ensures Inv(ClickOngoingAt(s, pos))
  {
  }

  lemma EditEndDatePreservesInv(s: Section, pos: nat, value: string)
    requires Inv(s)
    ensures Inv(EditEndDate(s, pos, value))
  {
  }

  /** Removing the entry just added restores a renumbered section exactly. */
  lemma AddThenRemoveLast(s: Section)
    requires Inv(s)
    requires forall p :: 0 <= p < |s.items| ==> s.items[p].index == p
    ensures Remove(Add(s), |s.items|) == s
  {
    var a := Add(s);
    var n := |s.items|;
    assert a.items[..n] + a.items[n + 1..] == s.items;
    assert a.records[..n + 1] + a.records[n + 2..] == s.records;
    var r := Remove(a, n);
    assert r.items == s.items;
  }

  /** Unlike what one might expect, the code does not keep at least one entry:
      the first entry shown has a remove control, so the list can be emptied. */
  lemma SectionCanBeEmptied(c: Category)
    ensures Remove(Add(Seed(c)), 0).items == []
  {
  }

  // ---------------------------------------------------------------------------
  // The ongoing checkbox: as written and as intended
  // ---------------------------------------------------------------------------

  /** The intended click keeps a checked entry's end date empty and locked. */
  lemma ClickOngoingAtKeepsOngoingInv(s: Section, pos: nat)
    requires OngoingInv(s)
    ensures OngoingInv(ClickOngoingAt(s, pos))
  {
  }

  lemma AddKeepsOngoingInv(s: Section)
    requires OngoingInv(s)
    ensures OngoingInv(Add(s))
  {
  }

  lemma RemoveKeepsOngoingInv(s: Section, pos: nat)
    requires OngoingInv(s)
    ensures OngoingInv(Remove(s, pos))
  {
  }

  lemma EditEndDateKeepsOngoingInv(s: Section, pos: nat, value: string)
    requires OngoingInv(s)
    ensures OngoingInv(EditEndDate(s, pos, value))
  {
  }

  /** While no two entries share a key, the handler as written acts on the
      clicked entry, so it behaves as intended. */
  lemma UniqueKeysClickAsIntended(s: Section, pos: nat)
    requires UniqueKeys(s)
    ensures ClickOngoing(s, pos) == ClickOngoingAt(s, pos)
  {
    if HasOngoing(s.category) && pos < |s.items| {
      var flipped := s.(items := s.items[pos := s.items[pos].(ongoing := !s.items[pos].ongoing)]);
      var q := FirstWithKey(flipped.items, s.items[pos].key);
      assert flipped.items[pos].key == s.items[pos].key;
      assert q == pos;
      assert ClickOngoing(s, pos).items == ClickOngoingAt(s, pos).items;
    }
  }

  /** Checking then unchecking an entry's ongoing box leaves its end date empty
      and editable: the earlier value is lost. */
  lemma CheckThenUncheckClearsEndDate(s: Section, pos: nat)
    requires HasOngoing(s.category) && pos < |s.items| && !s.items[pos].ongoing
    ensures var it := ClickOngoingAt(ClickOngoingAt(s, pos), pos).items[pos];
            !it.ongoing && it.endDate == [] && !it.endDateDisabled
  {
  }

  /** The same for the handler as written, whenever keys are unique. */
  lemma CheckThenUncheckClearsEndDateAsWritten(s: Section, pos: nat)
    requires UniqueKeys(s)
    requires HasOngoing(s.category) && pos < |s.items| && !s.items[pos].ongoing
    ensures var it := ClickOngoing(ClickOngoing(s, pos), pos).items[pos];
            !it.ongoing && it.endDate == [] && !it.endDateDisabled
  {
    UniqueKeysClickAsIntended(s, pos);
    var s1 := ClickOngoing(s, pos);
    assert UniqueKeys(s1);
    UniqueKeysClickAsIntended(s1, pos);
  }

  /** After removing an entry and adding another, the new entry reuses a key
      still held by a shown entry. Its checkbox handler then reads the other
      entry's checkbox and edits the other entry's end date, so the clicked
      entry ends up checked with its end date still filled in and editable. */
  lemma DuplicateKeyBreaksOngoing()
    ensures var s := Add(Remove(Add(Add(Seed(Organisation))), 0));
            var typed := EditEndDate(s, 1, "2024-01-31");
            var clicked := ClickOngoing(typed, 1);
            && Inv(s) && OngoingInv(typed)
            && s.items[0].key == s.items[1].key
            && clicked.items[1].ongoing
            && clicked.items[1].endDate == "2024-01-31"
            && !clicked.items[1].endDateDisabled
            && !OngoingInv(clicked)
  {
    var s0 := Add(Add(Seed(Organisation)));
    var s1 := Remove(s0, 0);
    assert s1.items[0].key == 2 && |s1.records| == 2;
    var s := Add(s1);
    assert s.items[1].key == 2;
    var typed := EditEndDate(s, 1, "2024-01-31");
    assert FirstWithKey(typed.items, 2) == 0;
  }
}
