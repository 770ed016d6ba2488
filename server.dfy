/**
 * The two HTTP handlers of the ticket service, as one decision each: from
 * whether the request is authorized, its URL path and its method, to what the
 * handler does with it. Authorization, the repositories, the response object
 * and the cache are outside the model: authorization is the `authorized`
 * input, and everything else appears only as the tag of the outcome.
 */
module Server {
  import opened Wrappers
  import GoStrings
  import Strconv

  const STATUS_BAD_REQUEST := 400
  const STATUS_UNAUTHORIZED := 401
  const STATUS_METHOD_NOT_ALLOWED := 405

  const METHOD_GET := "GET"
  const METHOD_POST := "POST"
  const METHOD_PUT := "PUT"
  const METHOD_DELETE := "DELETE"

  const TICKETS_PATH := "/tickets"
  const EXPECT_TICKET_ID := "expect /ticket/<id> in task handler"

  /** The process-wide ticket cache, passed to the read operations as an opaque handle. */
  datatype CacheHandle = TicketCache

  /** The repository operation a request is handed to, with the ticket id where there is one. */
  datatype RepoCall =
    | CreateTicket
    | GetAllTickets(cache: CacheHandle)
    | UpdateTicket(id: int)
    | DeleteTicketById(id: int)
    | GetTicketById(cache: CacheHandle, id: int)

  /** A status message: literal text, or the text of an Atoi error. */
  datatype StatusMessage = Text(text: string) | ParseFailure(err: Strconv.NumError)

  datatype Outcome =
      /** http.Error: the status code and the error message, which is written as the body followed by a newline. */
    | HttpError(code: int, message: string)
      /** The handler's response object is sent with this status code and, if set, status message. */
    | Reply(code: int, status: Option<StatusMessage>)
      /** The request is handed to a repository operation, which answers it. */
    | Dispatch(call: RepoCall)
      /** The handler returns without writing anything. */
    | NoReply

  function UnsupportedMethod(verb: string): StatusMessage {
    Text("Method " + verb + " is not supported")
  }

  function ExpectGetOrDelete(verb: string): StatusMessage {
    Text("expect method GET or DELETE at /ticket/<id>, got " + verb)
  }

  /** Handler for "/tickets": create a ticket or list them all. */
  function AllTicketsHandler(authorized: bool, path: string, verb: string): Outcome {
    if !authorized then HttpError(STATUS_UNAUTHORIZED, "Unauthorized")
    else if path != TICKETS_PATH then NoReply
    else if verb == METHOD_POST then Dispatch(CreateTicket)
    else if verb == METHOD_GET then Dispatch(GetAllTickets(TicketCache))
    else Reply(STATUS_METHOD_NOT_ALLOWED, Some(UnsupportedMethod(verb)))
  }

  /** The path with its surrounding slashes trimmed, split at every slash. */
  function Segments(path: string): seq<string> {
    GoStrings.Split(GoStrings.Trim(path, '/'), '/')
  }

  /** The second segment of the path, where there is one: the text that must hold the id. */
  function IdSegment(path: string): Option<string> {
    var parts := Segments(path);
    if |parts| < 2 then None else Some(parts[1])
  }

  /**
   * What the ticket handler does once it has the id segment of an authorized
   * request: parse it, then dispatch on the method. The int-to-int64
   * conversion of the id is the identity on a 64-bit platform.
   */
  function TicketById(segment: string, verb: string): Outcome {
    match Strconv.Atoi(segment)
    case Err(e) => Reply(STATUS_BAD_REQUEST, Some(ParseFailure(e)))
    case Ok(id) =>
      if verb == METHOD_PUT then Dispatch(UpdateTicket(id))
      else if verb == METHOD_DELETE then Dispatch(DeleteTicketById(id))
      else if verb == METHOD_GET then Dispatch(GetTicketById(TicketCache, id))
      else Reply(STATUS_METHOD_NOT_ALLOWED, Some(ExpectGetOrDelete(verb)))
  }

  /** Handler for "/ticket/<id>": GET reads, PUT updates and DELETE deletes the ticket with that id. */
  function TicketHandler(authorized: bool, path: string, verb: string): Outcome {
    if !authorized then Reply(STATUS_UNAUTHORIZED, None)
    else
      match IdSegment(path)
      case None => Reply(STATUS_BAD_REQUEST, Some(Text(EXPECT_TICKET_ID)))
      case Some(segment) => TicketById(segment, verb)
  }

  // ---------------------------------------------------------------------------
  // allTicketsHandler
  // ---------------------------------------------------------------------------

  /** Authorization is checked first: an unauthorized request gets 401 "Unauthorized", whatever its path. */
  lemma AllTicketsUnauthorized(path: string, verb: string)
    ensures AllTicketsHandler(false, path, verb) == HttpError(STATUS_UNAUTHORIZED, "Unauthorized")
  {
  }

  /** An authorized request on any path other than exactly "/tickets" is neither answered nor dispatched. */
  lemma AllTicketsWrongPath(path: string, verb: string)
    requires path != TICKETS_PATH
    ensures AllTicketsHandler(true, path, verb) == NoReply
  {
  }

  /**
   * On "/tickets", POST creates, GET lists through the cache, and every other
   * method gets 405 naming the method; these are the only outcomes.
   */
  lemma AllTicketsMethods(verb: string)
    ensures AllTicketsHandler(true, TICKETS_PATH, verb) == Dispatch(CreateTicket) <==> verb == METHOD_POST
    ensures AllTicketsHandler(true, TICKETS_PATH, verb) == Dispatch(GetAllTickets(TicketCache)) <==> verb == METHOD_GET
    ensures verb != METHOD_POST && verb != METHOD_GET ==>
      AllTicketsHandler(true, TICKETS_PATH, verb) == Reply(STATUS_METHOD_NOT_ALLOWED, Some(UnsupportedMethod(verb)))
  {
  }

  /** A repository call is made only for an authorized request on "/tickets" with POST or GET. */
  lemma AllTicketsDispatchOnly(authorized: bool, path: string, verb: string)
    ensures AllTicketsHandler(authorized, path, verb).Dispatch? <==>
      authorized && path == TICKETS_PATH && (verb == METHOD_POST || verb == METHOD_GET)
  {
  }

  // ---------------------------------------------------------------------------
  // ticketHandler
  // ---------------------------------------------------------------------------

  /** An unauthorized request gets 401 with no status message and no repository call, whatever the path or method. */
  lemma TicketUnauthorized(path: string, verb: string)
    ensures TicketHandler(false, path, verb) == Reply(STATUS_UNAUTHORIZED, None)
  {
  }

  /** There is an id segment exactly when the trimmed path still holds a slash. */
  lemma IdSegmentPresent(path: string)
    ensures IdSegment(path).None? <==> '/' !in GoStrings.Trim(path, '/')
  {
    GoStrings.SplitSingle(GoStrings.Trim(path, '/'), '/');
  }

  /** Dispatching on a segment never produces the missing-id rejection. */
  lemma TicketByIdNotMissing(segment: string, verb: string)
    ensures TicketById(segment, verb) != Reply(STATUS_BAD_REQUEST, Some(Text(EXPECT_TICKET_ID)))
  {
    // A bad id carries a ParseFailure and a bad method gets 405, so neither is the missing-id 400.
  }

  /**
   * The "expect /ticket/<id>" rejection happens exactly when the trimmed path
   * holds no slash, i.e. splits into a single segment.
   */
  lemma TicketMissingId(path: string, verb: string)
    ensures TicketHandler(true, path, verb) == Reply(STATUS_BAD_REQUEST, Some(Text(EXPECT_TICKET_ID)))
      <==> '/' !in GoStrings.Trim(path, '/')
  {
    IdSegmentPresent(path);
    if IdSegment(path).Some? {
      TicketByIdNotMissing(IdSegment(path).value, verb);
    }
  }

  /**
   * With an id segment that Atoi rejects, the request gets 400 carrying
   * Atoi's error, and no repository call.
   */
  lemma TicketBadId(path: string, verb: string)
    requires IdSegment(path).Some? && Strconv.Atoi(IdSegment(path).value).Err?
    ensures TicketHandler(true, path, verb) ==
      Reply(STATUS_BAD_REQUEST, Some(ParseFailure(Strconv.Atoi(IdSegment(path).value).error)))
  {
  }

  /**
   * With an id segment that Atoi accepts, PUT updates, DELETE deletes and GET
   * reads (through the cache) the ticket with that id; any other method gets 405.
   */
  lemma TicketMethods(path: string, verb: string)
    requires IdSegment(path).Some? && Strconv.Atoi(IdSegment(path).value).Ok?
    ensures var id := Strconv.Atoi(IdSegment(path).value).value;
      && (verb == METHOD_PUT ==> TicketHandler(true, path, verb) == Dispatch(UpdateTicket(id)))
      && (verb == METHOD_DELETE ==> TicketHandler(true, path, verb) == Dispatch(DeleteTicketById(id)))
      && (verb == METHOD_GET ==> TicketHandler(true, path, verb) == Dispatch(GetTicketById(TicketCache, id)))
      && (verb != METHOD_PUT && verb != METHOD_DELETE && verb != METHOD_GET ==>
            TicketHandler(true, path, verb) == Reply(STATUS_METHOD_NOT_ALLOWED, Some(ExpectGetOrDelete(verb))))
  {
  }

  /**
   * A repository call is made exactly for an authorized request whose id
   * segment is a decimal integer (one optional sign, at least one digit)
   * within the 64-bit int range, with method PUT, DELETE or GET; the call
   * carries the integer that segment denotes.
   */
  lemma TicketDispatchExactly(authorized: bool, path: string, verb: string)
    ensures TicketHandler(authorized, path, verb).Dispatch? <==>
      && authorized
      && IdSegment(path).Some?
      && Strconv.IsDecimalInteger(IdSegment(path).value)
      && Strconv.INT_MIN <= Strconv.SignedValue(IdSegment(path).value) <= Strconv.INT_MAX
      && (verb == METHOD_PUT || verb == METHOD_DELETE || verb == METHOD_GET)
    ensures TicketHandler(authorized, path, verb).Dispatch? ==>
      var call := TicketHandler(authorized, path, verb).call;
      && (call.UpdateTicket? || call.DeleteTicketById? || call.GetTicketById?)
      && call.id == Strconv.SignedValue(IdSegment(path).value)
  {
    if IdSegment(path).Some? {
      Strconv.AtoiCorrect(IdSegment(path).value);
    }
  }

  /**
   * The id is the second segment: for a path "/<a>/<b><tail>" with a
   * non-empty first segment, a non-empty second segment, and a tail that is
   * empty or starts a new segment, the id segment is b.
   */
  lemma {:induction false} SecondSegment(a: string, b: string, tail: string)
    requires a != [] && '/' !in a
    requires b != [] && '/' !in b
    requires tail == [] || tail[0] == '/'
    ensures IdSegment("/" + a + "/" + b + tail) == Some(b)
  {
    var t := GoStrings.TrimRight(tail, '/');
    assert "/" + a + "/" + b + tail == ['/'] + a + ['/'] + b + tail;
    GoStrings.TrimAroundSegments(a, b, tail, '/');
    GoStrings.TrimRightSpec(tail, '/');
    assert t == [] || t[0] == '/';
    assert a + "/" + b + t == a + ['/'] + b + t;
    GoStrings.SplitSecondSegment(a, b, t, '/');
  }

  /**
   * Only the second segment matters: the handler treats "/<a>/<b><tail>" as it
   * treats "/ticket/<b>". The first segment is never looked at and the tail is
   * ignored.
   */
  lemma TicketSecondSegmentOnly(authorized: bool, a: string, b: string, tail: string, verb: string)
    requires a != [] && '/' !in a
    requires b != [] && '/' !in b
    requires tail == [] || tail[0] == '/'
    ensures TicketHandler(authorized, "/" + a + "/" + b + tail, verb) == TicketHandler(authorized, "/ticket/" + b, verb)
  {
    assert "/ticket/" + b == "/" + "ticket" + "/" + b + [];
    SecondSegment(a, b, tail);
    SecondSegment("ticket", b, []);
  }

  // ---------------------------------------------------------------------------
  // Example requests
  //
  // Each example takes the path as a parameter fixed by its requires: a literal
  // argument would make the verifier unfold Trim, Split and Atoi on it eagerly.
  // ---------------------------------------------------------------------------

  /** "/ticket/" trims to "ticket", a single segment, so it is rejected for its shape. */
  lemma ExampleTrailingSlashOnly(path: string, verb: string)
    requires path == "/ticket/"
    ensures TicketHandler(true, path, verb) == Reply(STATUS_BAD_REQUEST, Some(Text(EXPECT_TICKET_ID)))
  {
    assert GoStrings.Trim(path, '/') == "ticket" by {
      assert path == "/" + "ticket" + "/";
      GoStrings.TrimUnique("/", "ticket", "/", '/');
    }
    assert '/' !in "ticket";
    IdSegmentPresent(path);
  }

  /** "/ticket//5" has an empty second segment, which Atoi rejects as a syntax error. */
  lemma ExampleEmptySecondSegment(path: string, verb: string)
    requires path == "/ticket//5"
    ensures TicketHandler(true, path, verb) ==
      Reply(STATUS_BAD_REQUEST, Some(ParseFailure(Strconv.NumError("Atoi", "", Strconv.ErrSyntax))))
  {
    assert GoStrings.Trim(path, '/') == "ticket//5" by {
      assert path == "/" + "ticket//5" + "";
      GoStrings.TrimUnique("/", "ticket//5", "", '/');
    }
    assert IdSegment(path) == Some("") by {
      assert "ticket//5" == "ticket" + ['/'] + "" + "/5";
      GoStrings.SplitSecondSegment("ticket", "", "/5", '/');
    }
    assert Strconv.Atoi("") == Err(Strconv.NumError("Atoi", "", Strconv.ErrSyntax)) by {
      assert Strconv.ParseUint("") == Err(Strconv.ErrSyntax);
    }
  }

  /** "/ticket/5/x" with GET reads ticket 5: the trailing segment is ignored. */
  lemma ExampleTrailingSegment(path: string)
    requires path == "/ticket/5/x"
    ensures TicketHandler(true, path, METHOD_GET) == Dispatch(GetTicketById(TicketCache, 5))
  {
    assert IdSegment(path) == Some("5") by {
      assert path == "/" + "ticket" + "/" + "5" + "/x";
      SecondSegment("ticket", "5", "/x");
    }
    assert Strconv.Atoi("5") == Ok(5) by {
      Strconv.AtoiItoa(5);
      assert Strconv.Itoa(5) == "5";
    }
  }

  /** A plus sign is accepted too: "/ticket/+5" with PUT updates ticket 5. */
  lemma ExamplePlusSignedId(path: string)
    requires path == "/ticket/+5"
    ensures TicketHandler(true, path, METHOD_PUT) == Dispatch(UpdateTicket(5))
  {
    assert IdSegment(path) == Some("+5") by {
      assert path == "/" + "ticket" + "/" + "+5" + "";
      SecondSegment("ticket", "+5", "");
    }
    assert Strconv.Atoi("+5") == Ok(5) by {
      assert "+5" == "+" + "5";
      Strconv.AtoiPlusSign("5");
      Strconv.AtoiItoa(5);
      assert Strconv.Itoa(5) == "5";
    }
  }

  /** A sign is accepted: "/ticket/-3" with DELETE deletes ticket -3. */
  lemma ExampleSignedId(path: string)
    requires path == "/ticket/-3"
    ensures TicketHandler(true, path, METHOD_DELETE) == Dispatch(DeleteTicketById(-3))
  {
    assert IdSegment(path) == Some("-3") by {
      assert path == "/" + "ticket" + "/" + "-3" + "";
      SecondSegment("ticket", "-3", "");
    }
    assert Strconv.Atoi("-3") == Ok(-3) by {
      Strconv.AtoiItoa(-3);
      assert Strconv.FormatNat(3) == "3";
      assert Strconv.Itoa(-3) == "-3";
    }
  }
}
