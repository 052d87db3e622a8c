/**
 * The client's appointments view: the held list of appointment records, the
 * status tab that filters it, the sort selector that reorders it in place,
 * and the cancel action that replaces one record's status with the one the
 * server reports.
 */
module Appointments {
  import opened JsString

  datatype Option<T> = None | Some(value: T)

  /** The closed set of status strings the server uses. */
  datatype Status = Upcoming | Completed | Canceled

  /**
   * One appointment record. `date` is an abstract timestamp standing for
   * `new Date(date)`; `dateText` is the ISO date-time string the record carries
   * and the card displays.
   */
  datatype Appointment = Appointment(
    id: int,
    date: int,
    dateText: string,
    duration: int,
    serviceName: string,
    price: int,
    providerName: string,
    status: Status)

  // ---------------------------------------------------------------------
  // Orders
  // ---------------------------------------------------------------------

  /** The four reorderings the sort selector can apply. */
  datatype SortOrder = ByDate | ByPriceDescending | ByPriceAscending | ByProviderName

  /**
   * `s.localeCompare(t)` with the locale's collation replaced by plain
   * lexicographic order on Unicode scalar values: negative, zero or positive.
   */
  function NameCompare(s: string, t: string): (r: int)
    ensures -1 <= r <= 1
    decreases |s|
  {
    if s == [] && t == [] then 0
    else if s == [] then -1
    else if t == [] then 1
    else if s[0] < t[0] then -1
    else if s[0] > t[0] then 1
    else NameCompare(s[1..], t[1..])
  }

  /** Swapping the arguments negates the comparison. */
  lemma {:induction false} NameCompareAntisymmetric(s: string, t: string)
    ensures NameCompare(s, t) == -NameCompare(t, s)
    decreases |s|
  {
    if s != [] && t != [] && s[0] == t[0] {
      NameCompareAntisymmetric(s[1..], t[1..]);
    }
  }

  /** Two names compare equal exactly when they are the same string. */
  lemma {:induction false} NameCompareZeroIff(s: string, t: string)
    ensures NameCompare(s, t) == 0 <==> s == t
    decreases |s|
  {
    if s != [] && t != [] && s[0] == t[0] {
      NameCompareZeroIff(s[1..], t[1..]);
      assert s == [s[0]] + s[1..] && t == [t[0]] + t[1..];
    }
  }

  /** "Not after" is transitive. */
  lemma {:induction false} NameCompareTransitive(s: string, t: string, u: string)
    requires NameCompare(s, t) <= 0 && NameCompare(t, u) <= 0
    ensures NameCompare(s, u) <= 0
    decreases |s|
  {
    if s != [] && t != [] && u != [] && s[0] == t[0] == u[0] {
      NameCompareTransitive(s[1..], t[1..], u[1..]);
    }
  }

  /**
   * The comparator passed to `Array.prototype.sort` for each order: a
   * negative value puts `a` before `b`.
   */
  function Comparator(order: SortOrder, a: Appointment, b: Appointment): (r: int)
    ensures order == ByDate ==> (r < 0 <==> a.date < b.date) && (r == 0 <==> a.date == b.date)
    ensures order == ByPriceDescending ==> (r < 0 <==> a.price > b.price) && (r == 0 <==> a.price == b.price)
    ensures order == ByPriceAscending ==> (r < 0 <==> a.price < b.price) && (r == 0 <==> a.price == b.price)
    ensures order == ByProviderName ==> (r == 0 <==> a.providerName == b.providerName)
  {
    NameCompareZeroIff(a.providerName, b.providerName);
    match order
    case ByDate => a.date - b.date
    case ByPriceDescending => b.price - a.price
    case ByPriceAscending => a.price - b.price
    case ByProviderName => NameCompare(a.providerName, b.providerName)
  }

  /** Each comparator is consistent: when `a` goes after `b`, `b` goes before `a`. */
  lemma ComparatorFlip(order: SortOrder, a: Appointment, b: Appointment)
    requires Comparator(order, a, b) > 0
    ensures Comparator(order, b, a) < 0
  {
    if order == ByProviderName {
      NameCompareAntisymmetric(a.providerName, b.providerName);
    }
  }

  /** Each comparator's "not after" relation is transitive. */
  lemma ComparatorTransitive(order: SortOrder, a: Appointment, b: Appointment, c: Appointment)
    requires Comparator(order, a, b) <= 0 && Comparator(order, b, c) <= 0
    ensures Comparator(order, a, c) <= 0
  {
    if order == ByProviderName {
      NameCompareTransitive(a.providerName, b.providerName, c.providerName);
    }
  }

  /** `s` is in an order the comparator accepts: no record goes after a later one. */
  predicate SortedBy(order: SortOrder, s: seq<Appointment>)
  {
    forall i, j :: 0 <= i < j < |s| ==> Comparator(order, s[i], s[j]) <= 0
  }

  /** The first `n` records of `s` are in an order the comparator accepts. */
  predicate OrderedPrefix(order: SortOrder, s: seq<Appointment>, n: nat)
    requires n <= |s|
  {
    forall p, q :: 0 <= p < q < n ==> Comparator(order, s[p], s[q]) <= 0
  }

  /** What each order means for the records' own fields. */
  lemma SortedByMeaning(order: SortOrder, s: seq<Appointment>)
    ensures order == ByDate ==>
      (SortedBy(order, s) <==> forall i, j :: 0 <= i < j < |s| ==> s[i].date <= s[j].date)
    ensures order == ByPriceDescending ==>
      (SortedBy(order, s) <==> forall i, j :: 0 <= i < j < |s| ==> s[i].price >= s[j].price)
    ensures order == ByPriceAscending ==>
      (SortedBy(order, s) <==> forall i, j :: 0 <= i < j < |s| ==> s[i].price <= s[j].price)
    ensures order == ByProviderName ==>
      (SortedBy(order, s) <==>
       forall i, j :: 0 <= i < j < |s| ==> NameCompare(s[i].providerName, s[j].providerName) <= 0)
  {
  }

  /**
   * Sorts `a` in place by the comparator of `order`: afterwards it is ordered
   * and holds the same records as before.
   */
  method SortInPlace(a: array<Appointment>, order: SortOrder)
    modifies a
    ensures SortedBy(order, a[..])
    ensures multiset(a[..]) == multiset(old(a[..]))
  {
    var i := 0;
    while i < a.Length
      invariant 0 <= i <= a.Length
      invariant OrderedPrefix(order, a[..], i)
      invariant multiset(a[..]) == multiset(old(a[..]))
    {
      InsertIntoPrefix(a, order, i);
      i := i + 1;
    }
    assert a[..] == a[..a.Length];
  }

  /**
   * While the record being inserted sits at `j`: every other pair up to `n`
   * is in order, and the record at `j` goes after none of those right of it.
   */
  predicate InsertingAt(order: SortOrder, s: seq<Appointment>, n: nat, j: nat)
    requires j <= n < |s|
  {
    && (forall p, q :: 0 <= p < q <= n && p != j && q != j ==> Comparator(order, s[p], s[q]) <= 0)
    && (forall q :: j < q <= n ==> Comparator(order, s[j], s[q]) <= 0)
  }

  /** Swapping the inserted record with a left neighbour that goes after it keeps `InsertingAt`. */
  lemma InsertingAtStep(order: SortOrder, s: seq<Appointment>, n: nat, j: nat)
    requires 0 < j <= n < |s|
    requires InsertingAt(order, s, n, j)
    requires Comparator(order, s[j - 1], s[j]) > 0
    ensures InsertingAt(order, s[j - 1 := s[j]][j := s[j - 1]], n, j - 1)
  {
    ComparatorFlip(order, s[j - 1], s[j]);
  }

  /** Once the inserted record is not after its left neighbour, `s[..n + 1]` is ordered. */
  lemma InsertingAtDone(order: SortOrder, s: seq<Appointment>, n: nat, j: nat)
    requires j <= n < |s|
    requires InsertingAt(order, s, n, j)
    requires j > 0 ==> Comparator(order, s[j - 1], s[j]) <= 0
    ensures OrderedPrefix(order, s, n + 1)
  {
    forall p | 0 <= p < j - 1
      ensures Comparator(order, s[p], s[j]) <= 0
    {
      ComparatorTransitive(order, s[p], s[j - 1], s[j]);
    }
  }

  /** Exchanges the records at `j - 1` and `j`. */
  method SwapWithLeft(a: array<Appointment>, j: nat)
    requires 0 < j < a.Length
    modifies a
    ensures a[..] == old(a[..])[j - 1 := old(a[j])][j := old(a[j - 1])]
    ensures multiset(a[..]) == multiset(old(a[..]))
  {
    a[j - 1], a[j] := a[j], a[j - 1];
  }

  /**
   * One step of the sort: with `a[..i]` already ordered, the record at `i` is
   * moved left past every record that goes after it, so that `a[..i + 1]` is
   * ordered.
   */
  method InsertIntoPrefix(a: array<Appointment>, order: SortOrder, i: nat)
    requires i < a.Length
    requires OrderedPrefix(order, a[..], i)
    modifies a
    ensures OrderedPrefix(order, a[..], i + 1)
    ensures multiset(a[..]) == multiset(old(a[..]))
  {
    var j := i;
    while j > 0 && Comparator(order, a[j - 1], a[j]) > 0
      invariant 0 <= j <= i
      invariant InsertingAt(order, a[..], i, j)
      invariant multiset(a[..]) == multiset(old(a[..]))
    {
      InsertingAtStep(order, a[..], i, j);
      SwapWithLeft(a, j);
      j := j - 1;
    }
    InsertingAtDone(order, a[..], i, j);
  }

  // ---------------------------------------------------------------------
  // The sort selector
  // ---------------------------------------------------------------------

  const SortByDateLabel := "Sort by date"
  const SortByPriceDescendingLabel := "Sort by price - descending"
  const SortByPriceAscendingLabel := "Sort by price - ascending"
  const SortByProviderLabel := "Sort by service provider name"
  const PriceMarker := "Sort by price"
  const DescendingMarker := "descending"

  /**
   * The order a selector value asks for, tested in the source's order: an
   * exact match on the date label; then a value that includes the price
   * marker, descending when it also includes "descending"; then an exact
   * match on the provider label. Anything else asks for no reordering.
   */
  function ModeOf(value: string): Option<SortOrder>
  {
    if value == SortByDateLabel then Some(ByDate)
    else if Includes(value, PriceMarker) then
      (if Includes(value, DescendingMarker) then Some(ByPriceDescending) else Some(ByPriceAscending))
    else if value == SortByProviderLabel then Some(ByProviderName)
    else None
  }

  /** Each value, by which of the dispatch's tests it passes. */
  lemma ModeOfCases(value: string)
    ensures ModeOf(value) == Some(ByDate) <==> value == SortByDateLabel
    ensures ModeOf(value) == Some(ByPriceDescending) <==>
      Includes(value, PriceMarker) && Includes(value, DescendingMarker)
    ensures ModeOf(value) == Some(ByPriceAscending) <==>
      Includes(value, PriceMarker) && !Includes(value, DescendingMarker)
    ensures ModeOf(value) == Some(ByProviderName) <==> value == SortByProviderLabel
    ensures ModeOf(value) == None <==>
      value != SortByDateLabel && !Includes(value, PriceMarker) && value != SortByProviderLabel
  {
    DateLabelLacksPriceMarker();
    ProviderLabelLacksPriceMarker();
  }

  lemma DateLabelLacksPriceMarker()
    ensures !Includes(SortByDateLabel, PriceMarker)
  {
    NotIncludes(SortByDateLabel, PriceMarker, 0);
  }

  lemma ProviderLabelLacksPriceMarker()
    ensures !Includes(SortByProviderLabel, PriceMarker)
  {
    NotIncludes(SortByProviderLabel, PriceMarker, 8);
  }

  lemma DescendingLabelCarriesMarkers()
    ensures Includes(SortByPriceDescendingLabel, PriceMarker)
    ensures Includes(SortByPriceDescendingLabel, DescendingMarker)
  {
    IncludesAt(SortByPriceDescendingLabel, PriceMarker, 0);
    IncludesAt(SortByPriceDescendingLabel, DescendingMarker, 16);
  }

  lemma AscendingLabelCarriesPriceMarker()
    ensures Includes(SortByPriceAscendingLabel, PriceMarker)
  {
    IncludesAt(SortByPriceAscendingLabel, PriceMarker, 0);
  }

  lemma AscendingLabelLacksDescending()
    ensures !Includes(SortByPriceAscendingLabel, DescendingMarker)
  {
    NotIncludes(SortByPriceAscendingLabel, DescendingMarker, 0);
  }

  /** The four options of the selector ask for the four orders. */
  lemma MenuOptionsSelectOrders()
    ensures ModeOf(SortByDateLabel) == Some(ByDate)
    ensures ModeOf(SortByPriceDescendingLabel) == Some(ByPriceDescending)
    ensures ModeOf(SortByPriceAscendingLabel) == Some(ByPriceAscending)
    ensures ModeOf(SortByProviderLabel) == Some(ByProviderName)
  {
    DescendingLabelCarriesMarkers();
    AscendingLabelCarriesPriceMarker();
    AscendingLabelLacksDescending();
    DateLabelLacksPriceMarker();
    ProviderLabelLacksPriceMarker();
  }

  // ---------------------------------------------------------------------
  // Cancelling
  // ---------------------------------------------------------------------

  /**
   * The list after the server reports `status` for appointment `id`: the
   * record with that id gets the new status, every other field and every
   * other record stays as it was.
   */
  function CancelUpdate(list: seq<Appointment>, id: int, status: Status): (r: seq<Appointment>)
    ensures |r| == |list|
    ensures forall i :: 0 <= i < |list| && list[i].id == id ==> r[i] == list[i].(status := status)
    ensures forall i :: 0 <= i < |list| && list[i].id != id ==> r[i] == list[i]
  {
    if list == [] then []
    else
      [if list[0].id == id then list[0].(status := status) else list[0]]
      + CancelUpdate(list[1..], id, status)
  }

  /** Cancelling twice with the same reported status is cancelling once. */
  lemma CancelUpdateIdempotent(list: seq<Appointment>, id: int, status: Status)
    ensures CancelUpdate(CancelUpdate(list, id, status), id, status) == CancelUpdate(list, id, status)
  {
  }

  /** When no record has the id, the list is left exactly as it was. */
  lemma CancelUpdateMissingId(list: seq<Appointment>, id: int, status: Status)
    requires forall i :: 0 <= i < |list| ==> list[i].id != id
    ensures CancelUpdate(list, id, status) == list
  {
  }

  /** Cancelling leaves every record's id, and so the list's order, as it was. */
  lemma CancelUpdateKeepsIds(list: seq<Appointment>, id: int, status: Status)
    ensures forall i :: 0 <= i < |list| ==> CancelUpdate(list, id, status)[i].id == list[i].id
  {
  }

  // ---------------------------------------------------------------------
  // The status tab
  // ---------------------------------------------------------------------

  /** `r` is `s` with some of its elements left out, the rest in order. */
  predicate IsSubsequence(r: seq<Appointment>, s: seq<Appointment>)
    decreases |s|
  {
    r == [] || (s != [] && ((r[0] == s[0] && IsSubsequence(r[1..], s[1..])) || IsSubsequence(r, s[1..])))
  }

  /**
   * The records the status tab shows: those of the held list whose status
   * is the selected one, in the held order, each as often as it is held.
   */
  function Visible(list: seq<Appointment>, selected: Status): (r: seq<Appointment>)
    ensures IsSubsequence(r, list)
    ensures forall i :: 0 <= i < |r| ==> r[i].status == selected
    ensures forall x :: multiset(r)[x] == if x.status == selected then multiset(list)[x] else 0
  {
    if list == [] then []
    else
      var rest := Visible(list[1..], selected);
      assert list == [list[0]] + list[1..];
      if list[0].status == selected then
        assert ([list[0]] + rest)[1..] == rest;
        [list[0]] + rest
      else
        assert rest != [] ==> IsSubsequence(rest, list);
        rest
  }

  /** The three tabs together show every held record exactly once. */
  lemma {:induction false} TabsPartition(list: seq<Appointment>)
    ensures |Visible(list, Upcoming)| + |Visible(list, Completed)| + |Visible(list, Canceled)| == |list|
  {
    if list != [] {
      TabsPartition(list[1..]);
    }
  }

  /** Reordering the held list changes which records a tab shows by no more than their order. */
  lemma VisibleAfterReorder(list: seq<Appointment>, reordered: seq<Appointment>, selected: Status)
    requires multiset(reordered) == multiset(list)
    ensures multiset(Visible(reordered, selected)) == multiset(Visible(list, selected))
  {
  }

  /**
   * Once the server reports a cancelled appointment as `Canceled`, it is no
   * longer shown under the `Upcoming` tab.
   */
  lemma CancelledLeavesUpcoming(list: seq<Appointment>, id: int)
    ensures forall x :: x in Visible(CancelUpdate(list, id, Canceled), Upcoming) ==> x.id != id
  {
  }

  // ---------------------------------------------------------------------
  // The date label of a card
  // ---------------------------------------------------------------------

  /** `s.replace(/[TZ]/g, " ")`: every 'T' and every 'Z' becomes a space. */
  function BlankTZ(s: string): (r: string)
    ensures |r| == |s|
    ensures forall i :: 0 <= i < |s| ==> r[i] == if s[i] == 'T' || s[i] == 'Z' then ' ' else s[i]
  {
    if s == [] then []
    else [if s[0] == 'T' || s[0] == 'Z' then ' ' else s[0]] + BlankTZ(s[1..])
  }

  /**
   * The text after "Date&Time:" on the card of `a`: its date string with 'T'
   * and 'Z' blanked, without its last eight characters, and empty when the
   * string is shorter than eight, since `substring` clamps a negative end to
   * zero.
   */
  function DateLabel(a: Appointment): (r: string)
    ensures |r| == if |a.dateText| >= 8 then |a.dateText| - 8 else 0
    ensures forall i :: 0 <= i < |r| ==>
      r[i] == if a.dateText[i] == 'T' || a.dateText[i] == 'Z' then ' ' else a.dateText[i]
    ensures forall i :: 0 <= i < |r| ==> r[i] != 'T' && r[i] != 'Z'
  {
    SubstringFromStart(BlankTZ(a.dateText), |a.dateText| - 8);
    Substring(BlankTZ(a.dateText), 0, |a.dateText| - 8)
  }

  /** Example: on the server's ISO form the label keeps the date and the minutes. */
  lemma DateLabelExample(a: Appointment)
    requires a.dateText == "2024-05-01T10:30:00.000Z"
    ensures DateLabel(a) == "2024-05-01 10:30"
  {
    var shown := DateLabel(a);
    assert |shown| == 16;
    forall i | 0 <= i < 16 ensures shown[i] == "2024-05-01 10:30"[i] {
    }
  }

  // ---------------------------------------------------------------------
  // The view's state
  // ---------------------------------------------------------------------

  /** What the server's answer to the delete request came to. */
  datatype DeleteOutcome = Deleted(reported: Status) | DeleteFailed

  /** What the request for the user's appointments came to. */
  datatype FetchOutcome = Fetched(records: seq<Appointment>) | FetchFailed

  const CancelFailedMessage := "Failed to cancel the appointment."

  class AppointmentsView {
    var appointments: array?<Appointment>
    var loading: bool
    var error: Option<string>
    var selectedType: Status
    var selectedSort: string

    /** The state on mount: nothing held, loading, no error, the default tab and sort label. */
    constructor ()
      ensures appointments == null && loading && error == None
      ensures selectedType == Upcoming && selectedSort == SortByDateLabel
    {
      appointments := null;
      loading := true;
      error := None;
      selectedType := Upcoming;
      selectedSort := SortByDateLabel;
    }

    /**
     * The fetch has settled: on success the returned records are held in
     * the order the server sent them; either way loading ends. A failure
     * sets no error.
     */
    method FetchSettled(outcome: FetchOutcome)
      modifies this`appointments, this`loading
      ensures !loading
      ensures outcome.Fetched? ==>
        appointments != null && fresh(appointments) && appointments[..] == outcome.records
      ensures outcome.FetchFailed? ==> appointments == old(appointments)
    {
      if outcome.Fetched? {
        appointments := new Appointment[|outcome.records|](i requires 0 <= i < |outcome.records| => outcome.records[i]);
      }
      loading := false;
    }

    /** Choosing a status tab. */
    method SelectType(status: Status)
      modifies this`selectedType
      ensures selectedType == status
    {
      selectedType := status;
    }

    /**
     * Choosing a sort option: the label is remembered, and the held array is
     * reordered in place by the order the value asks for, or left as it is
     * when it asks for none.
     */
    method SortByChoice(value: string)
      requires appointments != null
      modifies this`selectedSort, appointments
      ensures selectedSort == value
      ensures multiset(appointments[..]) == multiset(old(appointments[..]))
      ensures value == SortByDateLabel ==> SortedBy(ByDate, appointments[..])
      ensures value != SortByDateLabel && Includes(value, PriceMarker) && Includes(value, DescendingMarker) ==>
        SortedBy(ByPriceDescending, appointments[..])
      ensures value != SortByDateLabel && Includes(value, PriceMarker) && !Includes(value, DescendingMarker) ==>
        SortedBy(ByPriceAscending, appointments[..])
      ensures value == SortByProviderLabel ==> SortedBy(ByProviderName, appointments[..])
      ensures ModeOf(value) == None ==> appointments[..] == old(appointments[..])
    {
      selectedSort := value;
      ModeOfCases(value);
      match ModeOf(value)
      case Some(order) => SortInPlace(appointments, order);
      case None =>
    }

    /**
     * Cancelling appointment `id` once the delete request has settled. On
     * success a new list replaces the held one, with the reported status on
     * that record; the error is untouched. On failure, or when there is no
     * held list to map over, the list stays and the error is set.
     */
    method CancelAppointment(id: int, outcome: DeleteOutcome)
      modifies this`appointments, this`error
      ensures outcome.Deleted? && old(appointments) != null ==>
        appointments != null && fresh(appointments) &&
        appointments[..] == CancelUpdate(old(appointments[..]), id, outcome.reported) &&
        error == old(error)
      ensures outcome.DeleteFailed? || old(appointments) == null ==>
        appointments == old(appointments) && error == Some(CancelFailedMessage)
    {
      if outcome.Deleted? && appointments != null {
        var updated := CancelUpdate(appointments[..], id, outcome.reported);
        appointments := new Appointment[|updated|](i requires 0 <= i < |updated| => updated[i]);
      } else {
        error := Some(CancelFailedMessage);
      }
    }
  }
}
