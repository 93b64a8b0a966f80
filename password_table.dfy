/** The page state of the credential table (frontend/src/components/PasswordTable.tsx).
    `total` is the total the last query returned, None while no data is loaded. */
module PasswordTable {
  import opened Wrappers
  import opened Pagination

  const PageSize := 10

  datatype PageButton = First | Previous | Next | Last

  /** The table's `pageCount`: 0 until data arrives. */
  function PageCount(total: Option<nat>): nat {
    if total.Some? then CeilDiv(total.value, PageSize) else 0
  }

  /** The count shown in "Page x of y": 1 until data arrives. */
  function DisplayedPageCount(total: Option<nat>): nat {
    if total.Some? then CeilDiv(total.value, PageSize) else 1
  }

  function Disabled(b: PageButton, page: int, total: Option<nat>): bool {
    match b
    case First => page == 1
    case Previous => page == 1
    case Next => if total.Some? then page >= PageCount(total) else true
    case Last => if total.Some? then page >= PageCount(total) else true
  }

  /** The page a click sets. */
  function Clicked(b: PageButton, page: int, total: Option<nat>): int {
    match b
    case First => 1
    case Previous => if page - 1 > 1 then page - 1 else 1
    case Next => if total.Some? then (if page + 1 < PageCount(total) then page + 1 else PageCount(total)) else page
    case Last => if total.Some? then PageCount(total) else page
  }

  /** Previous goes back one page but not below 1; First and Previous are off on page 1;
      without data Next and Last are off and Next would leave the page alone. */
  lemma ButtonRules(page: int, total: Option<nat>)
    ensures Clicked(Previous, page, total) == if page - 1 >= 1 then page - 1 else 1
    ensures Disabled(First, 1, total) && Disabled(Previous, 1, total)
    ensures total.None? ==> Disabled(Next, page, total) && Disabled(Last, page, total) && Clicked(Next, page, total) == page
    ensures total.Some? && page < PageCount(total) ==>
      Clicked(Next, page, total) == page + 1 && Clicked(Last, page, total) == PageCount(total)
  {
  }

  /** Pages run from 1 to the displayed count; no enabled button leaves that range,
      and none takes the page below 1 from anywhere. */
  lemma EnabledClicksStayInRange(b: PageButton, page: int, total: Option<nat>)
    requires !Disabled(b, page, total)
    ensures page >= 1 ==> Clicked(b, page, total) >= 1
    ensures 1 <= page <= DisplayedPageCount(total) ==> 1 <= Clicked(b, page, total) <= DisplayedPageCount(total)
  {
  }

  class TablePager {
    var page: int
    var search: string

    constructor ()
      ensures page == 1 && search == ""
    {
      page := 1;
      search := "";
    }

    /** The table's `pageIndex`. */
    function PageIndex(): int
      reads this
    {
      page - 1
    }

    /** A click does nothing on a disabled button. */
    method Press(b: PageButton, total: Option<nat>)
      modifies this
      ensures page == if Disabled(b, old(page), total) then old(page) else Clicked(b, old(page), total)
      ensures search == old(search)
    {
      if !Disabled(b, page, total) {
        page := Clicked(b, page, total);
      }
    }

    /** The debounced search callback: the term is taken and the page reset. */
    method SearchSettled(value: string)
      modifies this
      ensures search == value && page == 1 && PageIndex() == 0
    {
      search := value;
      page := 1;
    }
  }
}
