/** The response objects the server hands to `sendResponse`:
    `{ response: <tag>, status: <0|1>, content?: <payload> }`. Document
    values from the store are opaque, of type parameter D. */
module Envelopes {

  import opened Wrappers

  /** The `response` field. */
  datatype Tag = NotFound | Error | Expenses | Quotes | ExpenseNew | ExpenseDelete
  {
    /** The string written into the JSON body: a non-empty word of
        lower-case letters and '_', which JSON needs no escape for. */
    function Text(): (text: string)
      ensures text != []
      ensures forall i :: 0 <= i < |text| ==> 'a' <= text[i] <= 'z' || text[i] == '_'
    {
      match this
      case NotFound => "notfound"
      case Error => "error"
      case Expenses => "expenses"
      case Quotes => "quotes"
      case ExpenseNew => "expense_new"
      case ExpenseDelete => "expense_delete"
    }
  }

  /** One element of the quotes list. */
  datatype Quote = Quote(quote: string)

  /** The ticker symbol of the only quote. */
  const QUOTE_SYMBOL: string := "^BVSP"

  /** The `content` field: the documents found, the quote list, or what
      the store reported for a removal. */
  datatype Content<D> = Records(docs: seq<D>) | QuoteList(quotes: seq<Quote>) | Removal(result: D)

  datatype Envelope<D> = Envelope(response: Tag, status: int, content: Option<Content<D>>)

  /** What the store hands a callback: an error, or a result. */
  datatype StoreReply<R> = StoreFailed | StoreOk(result: R)

  /** The compatibility contract each tag's envelope keeps: status 1 with
      content for the two list reads, status 0 otherwise, content only on
      reads and deletions, and the quote list fixed. */
  predicate Conforms<D>(e: Envelope<D>)
  {
    match e.response
    case NotFound => e.status == 0 && e.content.None?
    case Error => e.status == 0 && e.content.None?
    case ExpenseNew => e.status == 0 && e.content.None?
    case Expenses => e.status == 1 && e.content.Some? && e.content.value.Records?
    case Quotes => e.status == 1 && e.content == Some(QuoteList([Quote(QUOTE_SYMBOL)]))
    case ExpenseDelete => e.status == 0 && e.content.Some? && e.content.value.Removal?
  }

  /** `responseNotFound`. */
  function NotFoundEnvelope<D>(): (e: Envelope<D>)
    ensures e.response == NotFound && Conforms(e)
  {
    Envelope(NotFound, 0, None)
  }

  /** `responseError`. */
  function ErrorEnvelope<D>(): (e: Envelope<D>)
    ensures e.response == Error && Conforms(e)
  {
    Envelope(Error, 0, None)
  }

  /** The envelope of the expenses list: the documents found. */
  function ExpensesEnvelope<D>(docs: seq<D>): (e: Envelope<D>)
    ensures e.response == Expenses && Conforms(e) && e.content.value.docs == docs
  {
    Envelope(Expenses, 1, Some(Records(docs)))
  }

  /** The envelope of the quotes list. */
  function QuotesEnvelope<D>(): (e: Envelope<D>)
    ensures e.response == Quotes && Conforms(e)
  {
    Envelope(Quotes, 1, Some(QuoteList([Quote(QUOTE_SYMBOL)])))
  }

  /** `expenseInsertCallback` without an error: no content even though the
      insertion succeeded. */
  function ExpenseNewEnvelope<D>(): (e: Envelope<D>)
    ensures e.response == ExpenseNew && Conforms(e)
  {
    Envelope(ExpenseNew, 0, None)
  }

  /** `expenseDeleteCallback`: the error envelope if the store reported an
      error, otherwise the store's result under status 0. */
  function DeleteEnvelope<D>(reply: StoreReply<D>): (e: Envelope<D>)
    ensures Conforms(e)
    ensures e.response == Error <==> reply.StoreFailed?
    ensures reply.StoreOk? ==> e.response == ExpenseDelete && e.content == Some(Removal(reply.result))
  {
    match reply
    case StoreFailed => ErrorEnvelope()
    case StoreOk(docs) => Envelope(ExpenseDelete, 0, Some(Removal(docs)))
  }

  /** Under the contract, status 1 means exactly a successful list read, and
      content is present exactly for list reads and deletions: a client
      cannot tell a failure from a successful write by its status. */
  lemma StatusMeaning<D>(e: Envelope<D>)
    requires Conforms(e)
    ensures e.status == 1 <==> e.response == Expenses || e.response == Quotes
    ensures e.content.Some? <==>
              e.response == Expenses || e.response == Quotes || e.response == ExpenseDelete
    ensures e.status == 0 || e.status == 1
  {
  }
}
