/** The page state of the home list (frontend/src/pages/Home.tsx). Its buttons are
    rendered only once data has arrived, so they work on `totalPages` directly. */
module Home {
  import opened Pagination
  import opened Wrappers
  import PasswordTable

  const PageSize := 10

  function TotalPages(total: nat): nat {
    CeilDiv(total, PageSize)
  }

  function Disabled(b: PasswordTable.PageButton, page: int, totalPages: nat): bool {
    match b
    case First => page == 1
    case Previous => page == 1
    case Next => page >= totalPages
    case Last => page >= totalPages
  }

  function Clicked(b: PasswordTable.PageButton, page: int, totalPages: nat): int {
    match b
    case First => 1
    case Previous => if page - 1 > 1 then page - 1 else 1
    case Next => if page + 1 < totalPages then page + 1 else totalPages
    case Last => totalPages
  }

  /** With no items every button is off on page 1. */
  lemma EmptyListFreezesPageOne(b: PasswordTable.PageButton)
    ensures TotalPages(0) == 0 && Disabled(b, 1, TotalPages(0))
  {
  }

  /** Once data is loaded the home list and the table follow the same rules. */
  lemma SameRulesAsTable(b: PasswordTable.PageButton, page: int, total: nat)
    ensures Disabled(b, page, TotalPages(total)) == PasswordTable.Disabled(b, page, Some(total))
    ensures Clicked(b, page, TotalPages(total)) == PasswordTable.Clicked(b, page, Some(total))
  {
  }

  /** No enabled button takes the page out of 1..totalPages. */
  lemma EnabledClicksStayInRange(b: PasswordTable.PageButton, page: int, totalPages: nat)
    requires !Disabled(b, page, totalPages)
    ensures page >= 1 ==> Clicked(b, page, totalPages) >= 1
    ensures 1 <= page <= totalPages ==> 1 <= Clicked(b, page, totalPages) <= totalPages
  {
  }

  class HomePager {
    var page: int
    var search: string

    constructor ()
      ensures page == 1 && search == ""
    {
      page := 1;
      search := "";
    }

    method Press(b: PasswordTable.PageButton, total: nat)
      modifies this
      ensures var pages := TotalPages(total);
        page == if Disabled(b, old(page), pages) then old(page) else Clicked(b, old(page), pages)
      ensures search == old(search)
    {
      var totalPages := TotalPages(total);
      if !Disabled(b, page, totalPages) {
        page := Clicked(b, page, totalPages);
      }
    }

    method SearchSettled(value: string)
      modifies this
      ensures search == value && page == 1
    {
      search := value;
      page := 1;
    }
  }
}
