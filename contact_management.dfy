/**
 * The older list screen that keeps its contacts in local state: name search
 * with a group filter, a name sort that toggles between ascending and
 * descending, pages of six, removal by id after a confirmation dialog, and the
 * pagination bar.
 */
module ContactManagement {
  import opened ContactTypes
  import Seqs
  import Sorting
  import ContactQueries

  /** The screen's own contact record. */
  datatype LocalContact = LocalContact(id: string, name: string, email: string, phone: string, group: string)

  /** The contacts the screen starts with. */
  const MockContacts: seq<LocalContact> := [
    LocalContact("1", "Nguyễn Văn A", "nguyenvana@email.com", "0901234567", "Bạn bè"),
    LocalContact("2", "Trần Thị B", "tranthib@email.com", "0912345678", "Công việc"),
    LocalContact("3", "Lê Minh C", "leminhc@email.com", "0923456789", "Gia đình"),
    LocalContact("4", "Phạm Thu D", "phamthud@email.com", "0934567890", "Bạn bè"),
    LocalContact("5", "Hoàng Văn E", "hoangvane@email.com", "0945678901", "Công việc"),
    LocalContact("6", "Vũ Thị F", "vuthif@email.com", "0956789012", "Gia đình"),
    LocalContact("7", "Đặng Minh G", "dangminhg@email.com", "0967890123", "Khách hàng"),
    LocalContact("8", "Bùi Thu H", "buithuh@email.com", "0978901234", "Đối tác")
  ]

  /** The choices of the group selector, the "all groups" sentinel first. */
  const MockGroups: seq<string> := [AllGroups, "Bạn bè", "Công việc", "Gia đình", "Khách hàng", "Đối tác"]

  const ContactsPerPage: nat := 6

  // ---------------------------------------------------------------- filtering and sorting

  /** The filter: the lowercased name contains the lowercased term, and the group is selected. */
  predicate Shown(lower: string -> string, term: string, selectedGroup: string, c: LocalContact) {
    Seqs.Contains(lower(c.name), lower(term)) && (selectedGroup == AllGroups || c.group == selectedGroup)
  }

  /** `a.name.localeCompare(b.name, 'vi')`, negated unless the order is ascending. */
  function NameComparator(collate: (string, string) -> int, order: SortOrder): (LocalContact, LocalContact) -> int {
    Sorting.KeyedComparator(collate, (c: LocalContact) => c.name, order != Asc)
  }

  /** `filteredContacts`: the contacts that pass the filter, sorted by name. */
  function FilteredContacts(lower: string -> string, collate: (string, string) -> int, contacts: seq<LocalContact>,
                            term: string, selectedGroup: string, order: SortOrder): (r: seq<LocalContact>)
    ensures |r| <= |contacts|
  {
    Sorting.SortSeq(NameComparator(collate, order), Seqs.Filter(c => Shown(lower, term, selectedGroup, c), contacts))
  }

  /** The list holds every matching contact as often as the contacts do, and nothing else. */
  lemma FilteredIsPermutationOfMatches(lower: string -> string, collate: (string, string) -> int, contacts: seq<LocalContact>,
                                       term: string, selectedGroup: string, order: SortOrder, c: LocalContact)
    ensures multiset(FilteredContacts(lower, collate, contacts, term, selectedGroup, order))[c]
         == if Shown(lower, term, selectedGroup, c) then multiset(contacts)[c] else 0
    ensures c in FilteredContacts(lower, collate, contacts, term, selectedGroup, order)
        <==> c in contacts && Shown(lower, term, selectedGroup, c)
  {
    var p := (c: LocalContact) => Shown(lower, term, selectedGroup, c);
    var matches := Seqs.Filter(p, contacts);
    Sorting.SortPermutes(NameComparator(collate, order), matches);
    Seqs.FilterCount(p, contacts, c);
    assert c in FilteredContacts(lower, collate, contacts, term, selectedGroup, order) <==> c in matches by {
      assert c in multiset(FilteredContacts(lower, collate, contacts, term, selectedGroup, order)) <==> c in multiset(matches);
    }
  }

  /** The list is ordered by name under the collation, ascending or descending. */
  lemma FilteredIsOrderedByName(lower: string -> string, collate: (string, string) -> int, contacts: seq<LocalContact>,
                                term: string, selectedGroup: string, order: SortOrder, i: int, j: int)
    requires Sorting.ValidComparator(collate)
    requires 0 <= i < j < |FilteredContacts(lower, collate, contacts, term, selectedGroup, order)|
    ensures var r := FilteredContacts(lower, collate, contacts, term, selectedGroup, order);
            if order == Asc then collate(r[i].name, r[j].name) <= 0 else collate(r[j].name, r[i].name) <= 0
  {
    var cmp := NameComparator(collate, order);
    Sorting.KeyedComparatorValid(collate, (c: LocalContact) => c.name, order != Asc);
    Sorting.SortSorted(cmp, Seqs.Filter(c => Shown(lower, term, selectedGroup, c), contacts));
    var r := FilteredContacts(lower, collate, contacts, term, selectedGroup, order);
    assert cmp(r[i], r[j]) <= 0;
  }

  /**
   * With the initial filters (empty search term, "all groups") every contact is
   * shown; only `"".toLowerCase() == ""` is assumed of the lowercasing.
   */
  lemma InitialFiltersShowAll(lower: string -> string, contacts: seq<LocalContact>)
    requires lower("") == ""
    ensures Seqs.Filter(c => Shown(lower, "", AllGroups, c), contacts) == contacts
  {
    forall i | 0 <= i < |contacts|
      ensures Shown(lower, "", AllGroups, contacts[i])
    {
      assert "" <= lower(contacts[i].name);
    }
    Seqs.FilterKeepsAll(c => Shown(lower, "", AllGroups, c), contacts);
  }

  /** The empty state appears exactly when no contact passes the filter. */
  function ShowEmptyState(filtered: seq<LocalContact>): bool {
    |filtered| == 0
  }

  lemma EmptyStateIffNoMatch(lower: string -> string, collate: (string, string) -> int, contacts: seq<LocalContact>,
                             term: string, selectedGroup: string, order: SortOrder)
    ensures ShowEmptyState(FilteredContacts(lower, collate, contacts, term, selectedGroup, order))
        <==> forall i :: 0 <= i < |contacts| ==> !Shown(lower, term, selectedGroup, contacts[i])
  {
    var p := (c: LocalContact) => Shown(lower, term, selectedGroup, c);
    var matches := Seqs.Filter(p, contacts);
    if exists i :: 0 <= i < |contacts| && p(contacts[i]) {
      var i :| 0 <= i < |contacts| && p(contacts[i]);
      assert contacts[i] in matches;
    } else {
      Seqs.FilterDropsAll(p, contacts);
    }
  }

  // ---------------------------------------------------------------- pagination

  /** Eight matches make two pages, of six and of two contacts. */
  lemma EightMatchesMakeTwoPages(filtered: seq<LocalContact>)
    requires |filtered| == 8
    ensures ContactQueries.TotalPages(|filtered|, ContactsPerPage) == 2
    ensures |ContactQueries.PageSlice(filtered, 1, ContactsPerPage)| == 6
    ensures ContactQueries.PageSlice(filtered, 2, ContactsPerPage) == filtered[6..]
  {
  }

  /** Every numbered page from 1 to `totalPages` shows at least one contact. */
  lemma NumberedPagesAreNonEmpty(filtered: seq<LocalContact>, page: int)
    requires 1 <= page <= ContactQueries.TotalPages(|filtered|, ContactsPerPage)
    ensures ContactQueries.PageSlice(filtered, page, ContactsPerPage) != []
  {
    var n := ContactQueries.TotalPages(|filtered|, ContactsPerPage);
    ContactQueries.MulMono(page - 1, n - 1, ContactsPerPage);
  }

  /** The pagination bar: hidden for a single page, otherwise "previous", numbered buttons and "next". */
  datatype PaginationBar = Hidden | Bar(previousDisabled: bool, buttons: seq<int>, nextDisabled: bool)

  function Pagination(currentPage: int, totalPages: nat): (b: PaginationBar)
    ensures b.Bar? <==> totalPages > 1
    ensures b.Bar? ==> |b.buttons| == totalPages && forall i :: 0 <= i < |b.buttons| ==> b.buttons[i] == i + 1
    ensures b.Bar? ==> (b.previousDisabled <==> currentPage == 1) && (b.nextDisabled <==> currentPage == totalPages)
  {
    if totalPages > 1 then
      Bar(currentPage == 1, seq(totalPages, i => i + 1), currentPage == totalPages)
    else Hidden
  }

  /**
   * From a page in range, an enabled "previous" or "next" button and every
   * numbered button lead to a page in range, and so to a non-empty page.
   */
  lemma NavigationStaysOnPages(filtered: seq<LocalContact>, currentPage: int)
    requires 1 <= currentPage <= ContactQueries.TotalPages(|filtered|, ContactsPerPage)
    ensures var n := ContactQueries.TotalPages(|filtered|, ContactsPerPage);
            var b := Pagination(currentPage, n);
            && (b.Bar? && !b.previousDisabled ==> ContactQueries.PageSlice(filtered, currentPage - 1, ContactsPerPage) != [])
            && (b.Bar? && !b.nextDisabled ==> ContactQueries.PageSlice(filtered, currentPage + 1, ContactsPerPage) != [])
            && (b.Bar? ==> forall i :: 0 <= i < |b.buttons| ==>
                             b.buttons[i] >= 1 && ContactQueries.PageSlice(filtered, b.buttons[i], ContactsPerPage) != [])
  {
    var n := ContactQueries.TotalPages(|filtered|, ContactsPerPage);
    var b := Pagination(currentPage, n);
    if b.Bar? {
      if !b.previousDisabled {
        NumberedPagesAreNonEmpty(filtered, currentPage - 1);
      }
      if !b.nextDisabled {
        NumberedPagesAreNonEmpty(filtered, currentPage + 1);
      }
      forall i | 0 <= i < |b.buttons|
        ensures b.buttons[i] >= 1 && ContactQueries.PageSlice(filtered, b.buttons[i], ContactsPerPage) != []
      {
        NumberedPagesAreNonEmpty(filtered, i + 1);
      }
    }
  }

  // ---------------------------------------------------------------- deletion, sort toggle, badges

  /** `contacts.filter(c => c.id !== id)`. */
  function RemoveById(contacts: seq<LocalContact>, id: string): (r: seq<LocalContact>)
    ensures forall c :: c in r <==> c in contacts && c.id != id
    ensures |r| <= |contacts|
  {
    Seqs.Filter((c: LocalContact) => c.id != id, contacts)
  }

  /** Removal keeps the other contacts, every occurrence, in their order. */
  lemma RemoveByIdKeepsOthers(a: seq<LocalContact>, b: seq<LocalContact>, id: string, c: LocalContact)
    ensures RemoveById(a + b, id) == RemoveById(a, id) + RemoveById(b, id)
    ensures multiset(RemoveById(a, id))[c] == if c.id == id then 0 else multiset(a)[c]
  {
    Seqs.FilterConcat((c: LocalContact) => c.id != id, a, b);
    Seqs.FilterCount((c: LocalContact) => c.id != id, a, c);
  }

  /** `handleSort`: asc becomes desc and desc becomes asc. */
  function Toggle(order: SortOrder): (r: SortOrder)
    ensures r != order
  {
    if order == Asc then Desc else Asc
  }

  lemma ToggleTwice(order: SortOrder)
    ensures Toggle(Toggle(order)) == order
  {
  }

  /** The badge colours; `BadgeClass` gives the Tailwind classes of each. */
  datatype BadgeColor = Blue | Green | Purple | Orange | Pink | Gray

  /** The Tailwind colour name of each badge. */
  function ColorName(color: BadgeColor): string {
    match color
    case Blue => "blue"
    case Green => "green"
    case Purple => "purple"
    case Orange => "orange"
    case Pink => "pink"
    case Gray => "gray"
  }

  /** The class string `getGroupBadgeColor` returns for a colour. */
  function BadgeClass(color: BadgeColor): string {
    var n := ColorName(color);
    "bg-" + n + "-100 text-" + n + "-800 hover:bg-" + n + "-200"
  }

  /** The groups that have a badge colour of their own. */
  const BadgeGroups: seq<string> := ["Bạn bè", "Công việc", "Gia đình", "Khách hàng", "Đối tác"]

  /** `getGroupBadgeColor`, as the colour whose classes it returns. */
  function GroupBadgeColor(group: string): (r: BadgeColor)
    ensures group !in BadgeGroups ==> r == Gray
  {
    if group == "Bạn bè" then Blue
    else if group == "Công việc" then Green
    else if group == "Gia đình" then Purple
    else if group == "Khách hàng" then Orange
    else if group == "Đối tác" then Pink
    else Gray
  }

  /** The five named groups get five different colours, none of them gray. */
  lemma BadgeColorsDistinct(i: int, j: int)
    requires 0 <= i < |BadgeGroups| && 0 <= j < |BadgeGroups|
    ensures GroupBadgeColor(BadgeGroups[i]) != Gray
    ensures i != j ==> GroupBadgeColor(BadgeGroups[i]) != GroupBadgeColor(BadgeGroups[j])
  {
    assert GroupBadgeColor(BadgeGroups[0]) == Blue;
    assert GroupBadgeColor(BadgeGroups[1]) == Green;
    assert GroupBadgeColor(BadgeGroups[2]) == Purple;
    assert GroupBadgeColor(BadgeGroups[3]) == Orange;
    assert GroupBadgeColor(BadgeGroups[4]) == Pink;
  }

  /** Indices 3 and 5 of a badge's classes are the first and third letters of its colour name. */
  lemma BadgeClassLetters(color: BadgeColor)
    ensures |ColorName(color)| > 2 && |BadgeClass(color)| > 5
    ensures BadgeClass(color)[3] == ColorName(color)[0] && BadgeClass(color)[5] == ColorName(color)[2]
  {
    var n := ColorName(color);
    var head := "bg-" + n;
    assert BadgeClass(color) == head + ("-100 text-" + n + "-800 hover:bg-" + n + "-200");
    assert head[3] == n[0] && head[5] == n[2];
  }

  /** Every badge colour has its own classes. */
  lemma BadgeClassInjective(a: BadgeColor, b: BadgeColor)
    ensures BadgeClass(a) == BadgeClass(b) <==> a == b
  {
    BadgeClassLetters(a);
    BadgeClassLetters(b);
  }

  /** The group selector offers the sentinel followed by exactly the groups that have a badge colour. */
  lemma MockGroupsAreSentinelAndBadgeGroups()
    ensures MockGroups == [AllGroups] + BadgeGroups
    ensures forall k :: 1 <= k < |MockGroups| ==> GroupBadgeColor(MockGroups[k]) != Gray
    ensures GroupBadgeColor(MockGroups[0]) == Gray
  {
  }

  // ---------------------------------------------------------------- a blank page after deleting

  /**
   * As written: seven contacts, the user on page 2 (its only contact) deletes
   * it. Six contacts remain, page 2 is empty, the pagination bar is hidden
   * and the empty state is not shown, so nothing offers a way back.
   */
  lemma DeleteCanLeaveBlankPage(lower: string -> string, collate: (string, string) -> int,
                                contacts: seq<LocalContact>, id: string, order: SortOrder)
    requires lower("") == ""
    requires |contacts| == 7 && |RemoveById(contacts, id)| == 6
    ensures var before := FilteredContacts(lower, collate, contacts, "", AllGroups, order);
            ContactQueries.TotalPages(|before|, ContactsPerPage) == 2
            && ContactQueries.PageSlice(before, 2, ContactsPerPage) != []
    ensures var after := FilteredContacts(lower, collate, RemoveById(contacts, id), "", AllGroups, order);
            && ContactQueries.PageSlice(after, 2, ContactsPerPage) == []
            && Pagination(2, ContactQueries.TotalPages(|after|, ContactsPerPage)) == Hidden
            && !ShowEmptyState(after)
  {
    InitialFiltersShowAll(lower, contacts);
    InitialFiltersShowAll(lower, RemoveById(contacts, id));
  }

  /** The current page pulled back into 1..totalPages (1 when there are no pages). */
  function ClampPage(page: int, totalPages: nat): (p: int)
    ensures p >= 1
    ensures 1 <= page <= totalPages ==> p == page
    ensures totalPages >= 1 ==> p <= totalPages
  {
    if page > totalPages then (if totalPages >= 1 then totalPages else 1)
    else if page < 1 then 1
    else page
  }

  /** With the page clamped after a change, a non-empty list always shows a non-empty page. */
  lemma ClampedPageShowsContacts(filtered: seq<LocalContact>, page: int)
    requires filtered != []
    ensures ContactQueries.PageSlice(filtered, ClampPage(page, ContactQueries.TotalPages(|filtered|, ContactsPerPage)), ContactsPerPage) != []
  {
    var n := ContactQueries.TotalPages(|filtered|, ContactsPerPage);
    NumberedPagesAreNonEmpty(filtered, ClampPage(page, n));
  }

  // ---------------------------------------------------------------- the screen state

  /** The screen's `useState` hooks. */
  class ContactScreen {
    var contacts: seq<LocalContact>
    var searchTerm: string
    var selectedGroup: string
    var sortOrder: SortOrder
    var currentPage: int
    var dialogOpen: bool
    var dialogContact: Option<LocalContact>

    ghost predicate Valid()
      reads this
    {
      currentPage >= 1
    }

    constructor ()
      ensures Valid()
      ensures contacts == MockContacts && searchTerm == "" && selectedGroup == AllGroups
      ensures sortOrder == Asc && currentPage == 1 && !dialogOpen && dialogContact == None
    {
      contacts := MockContacts;
      searchTerm := "";
      selectedGroup := AllGroups;
      sortOrder := Asc;
      currentPage := 1;
      dialogOpen := false;
      dialogContact := None;
    }

    /** The filtered, sorted list the screen derives from its state. */
    function Filtered(lower: string -> string, collate: (string, string) -> int): seq<LocalContact>
      reads this
    {
      FilteredContacts(lower, collate, contacts, searchTerm, selectedGroup, sortOrder)
    }

    /** `paginatedContacts`: the current page of the filtered list. */
    function Visible(lower: string -> string, collate: (string, string) -> int): (r: seq<LocalContact>)
      reads this
      requires Valid()
      ensures |r| <= ContactsPerPage
      ensures |r| == ContactQueries.PageLength(|Filtered(lower, collate)|, currentPage, ContactsPerPage)
      ensures forall i :: 0 <= i < |r| ==>
                && ContactQueries.PageStart(currentPage, ContactsPerPage) + i < |Filtered(lower, collate)|
                && r[i] == Filtered(lower, collate)[ContactQueries.PageStart(currentPage, ContactsPerPage) + i]
      ensures forall c :: c in r ==> c in contacts && Shown(lower, searchTerm, selectedGroup, c)
    {
      var r := ContactQueries.PageSlice(Filtered(lower, collate), currentPage, ContactsPerPage);
      forall c | c in r
        ensures c in contacts && Shown(lower, searchTerm, selectedGroup, c)
      {
        FilteredIsPermutationOfMatches(lower, collate, contacts, searchTerm, selectedGroup, sortOrder, c);
      }
      r
    }

    method SetSearchTerm(term: string)
      modifies this`searchTerm
      ensures searchTerm == term
    {
      searchTerm := term;
    }

    method SetSelectedGroup(group: string)
      modifies this`selectedGroup
      ensures selectedGroup == group
    {
      selectedGroup := group;
    }

    /** A numbered page button. */
    method GoToPage(page: int)
      requires page >= 1
      modifies this`currentPage
      ensures Valid() && currentPage == page
    {
      currentPage := page;
    }

    /** "Previous", clickable only when the current page is not the first. */
    method PreviousPage()
      requires Valid() && currentPage != 1
      modifies this`currentPage
      ensures Valid() && currentPage == old(currentPage) - 1
    {
      currentPage := currentPage - 1;
    }

    /** "Next". */
    method NextPage()
      requires Valid()
      modifies this`currentPage
      ensures Valid() && currentPage == old(currentPage) + 1
    {
      currentPage := currentPage + 1;
    }

    /** `handleSort`. */
    method HandleSort()
      modifies this`sortOrder
      ensures sortOrder == Toggle(old(sortOrder))
    {
      sortOrder := Toggle(sortOrder);
    }

    /** `handleDeleteClick`: opens the dialog for one contact. */
    method HandleDeleteClick(c: LocalContact)
      modifies this`dialogOpen, this`dialogContact
      ensures dialogOpen && dialogContact == Some(c)
    {
      dialogOpen := true;
      dialogContact := Some(c);
    }

    /** The dialog's `onOpenChange`: opens or closes it, keeping the selected contact. */
    method HandleDialogOpenChange(open: bool)
      modifies this`dialogOpen
      ensures dialogOpen == open
    {
      dialogOpen := open;
    }

    /**
     * `confirmDelete`: without a selected contact nothing happens; otherwise the
     * contacts with its id are removed and the dialog is closed. The current
     * page is left as it was.
     */
    method ConfirmDelete()
      modifies this`contacts, this`dialogOpen, this`dialogContact
      ensures old(dialogContact).None? ==>
                contacts == old(contacts) && dialogOpen == old(dialogOpen) && dialogContact == old(dialogContact)
      ensures old(dialogContact).Some? ==>
                contacts == RemoveById(old(contacts), old(dialogContact).value.id) && !dialogOpen && dialogContact == None
    {
      if dialogContact.None? {
        return;
      }
      var id := dialogContact.value.id;
      contacts := RemoveById(contacts, id);
      dialogOpen := false;
      dialogContact := None;
    }
  }
}
