/** `appHandleRequest`: the dispatch from the request method and url to a
    handler. GET knows two urls and answers anything else with the
    not-found envelope; POST knows two urls and its switch has no default,
    so anything else gets no response at all; any other method gets the
    not-found envelope without the body being read. */
module Router {

  /** What the request is handed to. */
  datatype Route =
    | ListExpenses    // handleExpensesListRequest(request, response)
    | ListQuotes      // handleQuotesListRequest(), called with no arguments
    | CreateExpense   // handleExpenseNewRequest(request, response)
    | DeleteExpense   // handleExpenseDeleteRequest(request, response)
    | RespondNotFound // responseNotFound(response)
    | NoHandler       // nothing runs and nothing is sent

  /** Routes whose handler installs the body collector. The quotes handler
      would too, but it faults before its first `request.on`. */
  predicate ReadsBody(r: Route)
  {
    r == ListExpenses || r == CreateExpense || r == DeleteExpense
  }

  /** The exact (verb, url) pairs that have a handler. */
  const HANDLED: map<(string, string), Route> := map[
    ("GET", "/expenses") := ListExpenses,
    ("GET", "/quotes") := ListQuotes,
    ("POST", "/expense/new") := CreateExpense,
    ("POST", "/expense/delete") := DeleteExpense
  ]

  function Dispatch(verb: string, url: string): (r: Route)
    ensures r == ListExpenses <==> verb == "GET" && url == "/expenses"
    ensures r == ListQuotes <==> verb == "GET" && url == "/quotes"
    ensures r == CreateExpense <==> verb == "POST" && url == "/expense/new"
    ensures r == DeleteExpense <==> verb == "POST" && url == "/expense/delete"
    ensures r == NoHandler <==>
              verb == "POST" && url != "/expense/new" && url != "/expense/delete"
    ensures r == RespondNotFound <==>
              (verb == "GET" && url != "/expenses" && url != "/quotes") ||
              (verb != "GET" && verb != "POST")
    ensures r != RespondNotFound && r != NoHandler <==> (verb, url) in HANDLED
    ensures ReadsBody(r) <==> (verb, url) in HANDLED && (verb, url) != ("GET", "/quotes")
  {
    if verb == "GET" then
      if url == "/expenses" then ListExpenses
      else if url == "/quotes" then ListQuotes
      else RespondNotFound
    else if verb == "POST" then
      if url == "/expense/new" then CreateExpense
      else if url == "/expense/delete" then DeleteExpense
      else NoHandler
    else RespondNotFound
  }

  /** The dispatch agrees with the table of handled pairs, and what is not
      in the table is a silent drop for POST and not-found otherwise. */
  lemma DispatchMatchesTable(verb: string, url: string)
    ensures Dispatch(verb, url) ==
              if (verb, url) in HANDLED then HANDLED[(verb, url)]
              else if verb == "POST" then NoHandler
              else RespondNotFound
  {
  }
}
