/** One request from dispatch to reply, as the handlers of the server
    chain it: the router picks a handler; a body-reading handler collects
    the chunks under the flood guard; on `end` the create and delete
    handlers decode the body as a form; the handler calls the store once
    and turns its reply into an envelope. The store's replies and the
    UTF-8 decoding of the assembled buffer are inputs. */
module RequestLifecycle {

  import opened Wrappers
  import opened BodyCollector
  import opened FormDecoder
  import opened Envelopes
  import opened Router

  /** How the request stream finished after its chunks: an `end` event or
      an `error` event. */
  datatype Ending = Ended | Failed

  datatype Stream = Stream(chunks: seq<Chunk>, ending: Ending)

  /** The store operation a handler issues. */
  datatype StoreCall =
    | Find                        // expense collection, sorted by name
    | Insert(fields: Fields)      // the decoded form
    | Remove(id: Option<string>)  // fields['id'], before conversion to an ObjectId

  /** What the store answers to each kind of call. */
  datatype Replies<D> = Replies(found: StoreReply<seq<D>>, inserted: StoreReply<D>, removed: StoreReply<D>)

  /** How the request ends for the client. */
  datatype Outcome<D> =
    | Respond(envelope: Envelope<D>)  // sendResponse with this envelope
    | NoResponse                      // nothing is ever sent
    | ConnectionDestroyed             // the flood guard destroyed the connection
    | ProcessFault                    // an exception escapes to the process

  /** The store call made (at most one) and the outcome. */
  datatype Trace<D> = Trace(call: Option<StoreCall>, outcome: Outcome<D>)

  /** `fields['id']`: undefined both for a missing key and for a piece with
      no '='. */
  function IdOf(fields: Fields): (id: Option<string>)
    ensures id.Some? <==> "id" in fields && fields["id"].Some?
    ensures id.Some? ==> fields["id"] == id
  {
    if "id" in fields then fields["id"] else None
  }

  /** The `end` listener of a store-backed handler, given the assembled
      body text: list, or decode the form and insert or remove. It always
      makes its one store call, of the route's kind; it always answers
      with a conforming envelope, except that a failed find or insert is
      rethrown. */
  function EndListener<D>(route: Route, bodyStr: string, replies: Replies<D>): (t: Trace<D>)
    requires ReadsBody(route)
    ensures t.call.Some?
    ensures t.call.value.Find? <==> route == ListExpenses
    ensures t.call.value.Insert? <==> route == CreateExpense
    ensures t.outcome.Respond? ==> Conforms(t.outcome.envelope)
    ensures t.outcome.Respond? || t.outcome == ProcessFault
    ensures t.outcome == ProcessFault <==>
              || (route == ListExpenses && replies.found.StoreFailed?)
              || (route == CreateExpense && replies.inserted.StoreFailed?)
  {
    match route
    case ListExpenses =>
      Trace(Some(Find),
            match replies.found
            case StoreFailed => ProcessFault
            case StoreOk(docs) => Respond(ExpensesEnvelope(docs)))
    case CreateExpense =>
      Trace(Some(Insert(Decode(bodyStr))),
            if replies.inserted.StoreFailed? then ProcessFault else Respond(ExpenseNewEnvelope()))
    case DeleteExpense =>
      Trace(Some(Remove(IdOf(Decode(bodyStr)))), Respond(DeleteEnvelope(replies.removed)))
  }

  /** The whole request. GET /quotes calls its handler without the request
      object, so its first `request.on` throws. The delete handler's error
      listener only logs. A store error on find or insert is rethrown. */
  function Serve<D>(verb: string, url: string, stream: Stream,
                    utf8: seq<byte> -> string, replies: Replies<D>): (t: Trace<D>)
    ensures t.outcome.Respond? ==> Conforms(t.outcome.envelope)
    ensures t.call.Some? ==> ReadsBody(Dispatch(verb, url)) && stream.ending == Ended
    ensures t.outcome == ConnectionDestroyed ==> ReadsBody(Dispatch(verb, url))
  {
    var route := Dispatch(verb, url);
    match route
    case RespondNotFound => Trace(None, Respond(NotFoundEnvelope()))
    case NoHandler => Trace(None, NoResponse)
    case ListQuotes => Trace(None, ProcessFault)
    case _ =>
      var collected := Feed(INITIAL, stream.chunks);
      if collected.destroyed then Trace(None, ConnectionDestroyed)
      else
        match stream.ending
        case Failed =>
          Trace(None, if route == DeleteExpense then NoResponse else Respond(ErrorEnvelope()))
        case Ended => EndListener(route, utf8(Concat(collected.chunks)), replies)
  }

  /** A request not routed to a handler never touches its body or the
      store: not-found for GET and other methods, silence for POST. */
  lemma UnroutedRequests<D>(verb: string, url: string, stream: Stream,
                            utf8: seq<byte> -> string, replies: Replies<D>)
    requires (verb, url) !in HANDLED
    ensures Serve(verb, url, stream, utf8, replies) ==
              Trace(None, if verb == "POST" then NoResponse else Respond(NotFoundEnvelope()))
  {
  }

  /** GET /quotes selects the quotes handler but faults before it can
      answer, since the handler receives no request object. */
  lemma QuotesRequestFaults<D>(stream: Stream, utf8: seq<byte> -> string, replies: Replies<D>)
    ensures Dispatch("GET", "/quotes") == ListQuotes
    ensures Serve("GET", "/quotes", stream, utf8, replies) == Trace(None, ProcessFault)
  {
  }

  /** More than FLOOD_LIMIT + 1 chunks on a body-reading route destroy the
      connection: no envelope is produced and the store is not called. */
  lemma FloodDestroysConnection<D>(verb: string, url: string, stream: Stream,
                                   utf8: seq<byte> -> string, replies: Replies<D>)
    requires ReadsBody(Dispatch(verb, url))
    requires |stream.chunks| > FLOOD_LIMIT + 1
    ensures Serve(verb, url, stream, utf8, replies) == Trace(None, ConnectionDestroyed)
  {
    FeedFromInitial(stream.chunks);
  }

  /** A stream error before `end` answers with the error envelope, except on
      the delete route, whose error listener sends nothing. */
  lemma StreamErrorOutcome<D>(verb: string, url: string, chunks: seq<Chunk>,
                              utf8: seq<byte> -> string, replies: Replies<D>)
    requires ReadsBody(Dispatch(verb, url))
    requires |chunks| <= FLOOD_LIMIT + 1
    ensures Serve(verb, url, Stream(chunks, Failed), utf8, replies) ==
              Trace(None, if Dispatch(verb, url) == DeleteExpense then NoResponse
                          else Respond(ErrorEnvelope()))
  {
    CompleteBody(chunks);
  }

  /** A body of at most FLOOD_LIMIT + 1 chunks is collected whole. */
  lemma CompleteBody(chunks: seq<Chunk>)
    requires |chunks| <= FLOOD_LIMIT + 1
    ensures Feed(INITIAL, chunks) == State(chunks, false)
  {
    FeedFromInitial(chunks);
    assert chunks[..|chunks|] == chunks;
  }

  /** On a store-backed route a completed body of at most FLOOD_LIMIT + 1
      chunks reaches the `end` listener with all of its bytes in arrival
      order. */
  lemma CompletedBodyReachesEnd<D>(verb: string, url: string, chunks: seq<Chunk>,
                                   utf8: seq<byte> -> string, replies: Replies<D>)
    requires ReadsBody(Dispatch(verb, url))
    requires |chunks| <= FLOOD_LIMIT + 1
    ensures Serve(verb, url, Stream(chunks, Ended), utf8, replies) ==
              EndListener(Dispatch(verb, url), utf8(Concat(chunks)), replies)
  {
    CompleteBody(chunks);
  }

  /** GET /expenses on a completed body queries the store once and returns
      the documents under status 1; with no documents the content is the
      empty list. A store error faults the process. */
  lemma ListExpensesOutcome<D>(chunks: seq<Chunk>, utf8: seq<byte> -> string, replies: Replies<D>)
    requires |chunks| <= FLOOD_LIMIT + 1
    ensures var t := Serve("GET", "/expenses", Stream(chunks, Ended), utf8, replies);
            && t.call == Some(Find)
            && (replies.found.StoreFailed? ==> t.outcome == ProcessFault)
            && (replies.found.StoreOk? ==>
                  t.outcome == Respond(Envelope(Expenses, 1, Some(Records(replies.found.result)))))
  {
    CompleteBody(chunks);
  }

  /** POST /expense/new on a completed body inserts exactly the form decoded
      from all chunks in arrival order, and answers `expense_new` with
      status 0 and no content; an insertion error faults the process. */
  lemma CreateExpenseOutcome<D>(chunks: seq<Chunk>, utf8: seq<byte> -> string, replies: Replies<D>)
    requires |chunks| <= FLOOD_LIMIT + 1
    ensures Serve("POST", "/expense/new", Stream(chunks, Ended), utf8, replies).call ==
              Some(Insert(Decode(utf8(Concat(chunks)))))
    ensures Serve("POST", "/expense/new", Stream(chunks, Ended), utf8, replies).outcome ==
              if replies.inserted.StoreFailed? then ProcessFault else Respond(Envelope(ExpenseNew, 0, None))
  {
    CompletedBodyReachesEnd("POST", "/expense/new", chunks, utf8, replies);
  }

  /** POST /expense/delete on a completed body removes by the decoded `id`
      field and answers with the store's result, or the error envelope when
      the store reports an error. */
  lemma DeleteExpenseOutcome<D>(chunks: seq<Chunk>, utf8: seq<byte> -> string, replies: Replies<D>)
    requires |chunks| <= FLOOD_LIMIT + 1
    ensures var t := Serve("POST", "/expense/delete", Stream(chunks, Ended), utf8, replies);
            && t.call == Some(Remove(IdOf(Decode(utf8(Concat(chunks))))))
            && t.outcome == Respond(DeleteEnvelope(replies.removed))
            && (replies.removed.StoreOk? ==>
                  t.outcome == Respond(Envelope(ExpenseDelete, 0, Some(Removal(replies.removed.result)))))
            && (replies.removed.StoreFailed? ==> t.outcome == Respond(Envelope(Error, 0, None)))
  {
    CompletedBodyReachesEnd("POST", "/expense/delete", chunks, utf8, replies);
  }

  /** A body `id=<v>` with an '&'- and '='-free `v` removes by `v`. */
  lemma DeleteById<D>(chunks: seq<Chunk>, utf8: seq<byte> -> string, replies: Replies<D>, v: string)
    requires |chunks| <= FLOOD_LIMIT + 1
    requires utf8(Concat(chunks)) == "id=" + v && '&' !in v && '=' !in v
    ensures Serve("POST", "/expense/delete", Stream(chunks, Ended), utf8, replies).call ==
              Some(Remove(Some(v)))
  {
    CompletedBodyReachesEnd("POST", "/expense/delete", chunks, utf8, replies);
    IdOfSingleField(v);
  }

  /** The body `id=<v>` carries the id `v`. */
  lemma IdOfSingleField(v: string)
    requires '&' !in v && '=' !in v
    ensures IdOf(Decode("id=" + v)) == Some(v)
  {
    assert "id=" + v == "id" + "=" + v;
    DecodeSingleField("id", v);
  }

  /** The store is called at most once, and only after a completed,
      unflooded body on one of the three store-backed routes. */
  lemma StoreCalledOnlyAfterCompleteBody<D>(verb: string, url: string, stream: Stream,
                                            utf8: seq<byte> -> string, replies: Replies<D>)
    ensures Serve(verb, url, stream, utf8, replies).call.Some? <==>
              && ReadsBody(Dispatch(verb, url))
              && stream.ending == Ended
              && |stream.chunks| <= FLOOD_LIMIT + 1
  {
    FeedFromInitial(stream.chunks);
  }
}
