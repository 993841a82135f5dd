/**
  The admin leads page as a state machine: the loaded leads, the search box,
  the sort order and the current page, the events that change them, and what
  the table shows for a given state.
 */
module AdminLeads {
  import opened LeadList
  import opened Pagination
  import LeadSubmission

  /** The page's state; the filtered list is derived from it rather than stored. */
  datatype View = View(leads: seq<Lead>, searchQuery: string, currentPage: int, order: SortOrder)

  /** Nothing loaded, an empty search box, page 1, most recent first. */
  function Initial(): (v: View)
    ensures v.leads == [] && v.searchQuery == [] && v.currentPage == 1
    ensures v.order == InitialOrder
  {
    View([], "", 1, InitialOrder)
  }

  /** `filteredLeads` once the search effect has run. */
  function Filtered(v: View): seq<Lead> {
    FilterLeads(v.leads, v.searchQuery)
  }

  /** `sortedLeads`. */
  function Sorted(v: View): seq<Lead> {
    Sort(v.order, Filtered(v))
  }

  /** `totalPages`. */
  function Pages(v: View): nat {
    TotalPages(|Sorted(v)|)
  }

  /** `paginatedLeads`: the rows of the table. */
  function Shown(v: View): seq<Lead> {
    PageOf(Sorted(v), v.currentPage)
  }

  /**
    The label and the page buttons are rendered only below a non-empty table,
    and only when there is more than one page.
   */
  predicate ControlsVisible(v: View) {
    Pages(v) > 1 && Shown(v) != []
  }

  datatype Event =
    | Loaded(data: seq<Lead>)   // the leads query returned rows
    | LoadFailed                // the leads query failed; a toast is shown
    | Search(query: string)     // the search box's value changed
    | ToggleSortOrder
    | PreviousPage
    | NextPage

  /**
    One event. Loading leads or changing the search text re-runs the search
    effect, which puts the page back to 1; setting the search box to the text
    it already holds changes no state and so runs nothing. The page buttons
    exist only while the controls are visible.
   */
  function Step(v: View, e: Event): (r: View)
    ensures r.leads == (if e.Loaded? then e.data else v.leads)
    ensures r.searchQuery == (if e.Search? then e.query else v.searchQuery)
    ensures r.order == (if e.ToggleSortOrder? then Toggle(v.order) else v.order)
    ensures e.Loaded? || (e.Search? && e.query != v.searchQuery) ==> r.currentPage == 1
    ensures e.LoadFailed? || e.ToggleSortOrder? || (e.Search? && e.query == v.searchQuery) ==> r.currentPage == v.currentPage
    ensures (e.PreviousPage? || e.NextPage?) && !ControlsVisible(v) ==> r == v
    ensures e.PreviousPage? && ControlsVisible(v) ==> r == v.(currentPage := Prev(v.currentPage))
    ensures e.NextPage? && ControlsVisible(v) ==> r == v.(currentPage := Next(v.currentPage, Pages(v)))
  {
    match e
    case Loaded(data) => v.(leads := data, currentPage := 1)
    case LoadFailed => v
    case Search(q) => if q == v.searchQuery then v else v.(searchQuery := q, currentPage := 1)
    case ToggleSortOrder => v.(order := Toggle(v.order))
    case PreviousPage =>
      if ControlsVisible(v) then v.(currentPage := Prev(v.currentPage)) else v
    case NextPage =>
      if ControlsVisible(v) then v.(currentPage := Next(v.currentPage, Pages(v))) else v
  }

  /** The current page is a real page, or page 1 when there is nothing to show. */
  predicate PageValid(v: View) {
    1 <= v.currentPage <= Max(1, Pages(v))
  }

  /** Re-sorting moves leads around but keeps the same ones, so the page count stays. */
  lemma ToggleKeepsLeads(v: View)
    ensures multiset(Sorted(Step(v, ToggleSortOrder))) == multiset(Sorted(v))
    ensures Pages(Step(v, ToggleSortOrder)) == Pages(v)
  {
  }

  /** Every event keeps the current page valid. */
  lemma StepKeepsPageValid(v: View, e: Event)
    requires PageValid(v)
    ensures PageValid(Step(v, e))
  {
    match e
    case ToggleSortOrder =>
      ToggleKeepsLeads(v);
    case PreviousPage =>
      if ControlsVisible(v) {
        ClampsKeepRange(v.currentPage, Pages(v));
      }
    case NextPage =>
      if ControlsVisible(v) {
        ClampsKeepRange(v.currentPage, Pages(v));
      }
    case _ =>
  }

  /** The states reachable from `v` by `es`, the last one. */
  function Run(v: View, es: seq<Event>): View
    decreases |es|
  {
    if es == [] then v else Run(Step(v, es[0]), es[1..])
  }

  /** From the initial state, no sequence of events leads to an invalid page. */
  lemma {:induction false} RunKeepsPageValid(v: View, es: seq<Event>)
    requires PageValid(v)
    ensures PageValid(Run(v, es))
    decreases |es|
  {
    if es != [] {
      StepKeepsPageValid(v, es[0]);
      RunKeepsPageValid(Step(v, es[0]), es[1..]);
    }
  }

  lemma ReachableValid(es: seq<Event>)
    ensures PageValid(Run(Initial(), es))
  {
    RunKeepsPageValid(Initial(), es);
  }

  /** Toggling the order twice restores the page exactly. */
  lemma ToggleTwiceRestores(v: View)
    ensures Step(Step(v, ToggleSortOrder), ToggleSortOrder) == v
  {
    ToggleTwice(v.order);
  }

  /**
    The rows shown are loaded leads, each matching the search when the query
    is not blank.
   */
  lemma ShownAreMatches(v: View, l: Lead)
    requires l in Shown(v)
    ensures l in v.leads
    ensures NormaliseQuery(v.searchQuery) != [] ==> Matches(l, NormaliseQuery(v.searchQuery))
  {
    PageMember(Sorted(v), v.currentPage, l);
    assert l in multiset(Sorted(v));
    FilterMember(v.leads, v.searchQuery, l);
  }

  /** What the table area shows once loading is over. */
  datatype Table =
    | Rows(rows: seq<Lead>)
    | NoneFound   // "Nenhum lead encontrado": the search box holds text
    | NoneYet     // "Nenhum lead cadastrado ainda"

  function TableOf(v: View): (t: Table)
    ensures t.Rows? <==> Shown(v) != []
    ensures t.Rows? ==> t.rows == Shown(v)
    ensures t.NoneFound? <==> Shown(v) == [] && v.searchQuery != []
  {
    var shown := Shown(v);
    if shown != [] then Rows(shown)
    else if v.searchQuery != [] then NoneFound
    else NoneYet
  }

  /** On a valid page the table is empty exactly when no lead passes the search. */
  lemma EmptyTableIff(v: View)
    requires PageValid(v)
    ensures TableOf(v).Rows? <==> Filtered(v) != []
  {
    PageNonEmpty(Sorted(v), v.currentPage);
  }

  /**
    On a valid page the table is never empty while there is more than one
    page, so the controls show exactly when there is more than one page.
   */
  lemma ControlsVisibleIff(v: View)
    requires PageValid(v)
    ensures ControlsVisible(v) <==> Pages(v) > 1
  {
    PageNonEmpty(Sorted(v), v.currentPage);
  }

  /** The "Mostrando" label, present only with the page controls. */
  function RangeLabel(v: View): (r: LeadSubmission.Nullable<Range>)
    ensures r.Value? <==> ControlsVisible(v)
    ensures r.Value? ==> TableOf(v).Rows?
    ensures r.Value? ==> r.value.total == |Filtered(v)|
    ensures r.Value? ==> r.value.first == (v.currentPage - 1) * ItemsPerPage + 1
    ensures r.Value? ==> r.value.last == Min(v.currentPage * ItemsPerPage, |Filtered(v)|)
  {
    if ControlsVisible(v) then LeadSubmission.Value(Label(v.currentPage, |Sorted(v)|)) else LeadSubmission.Null
  }

  /** On a valid page the label names exactly the rows of the table. */
  lemma RangeLabelMatchesRows(v: View)
    requires PageValid(v) && ControlsVisible(v)
    ensures var l := RangeLabel(v).value;
      && 1 <= l.first <= l.last <= l.total
      && Shown(v) == Sorted(v)[l.first - 1..l.last]
  {
    LabelDescribesPage(Sorted(v), v.currentPage);
  }
}
