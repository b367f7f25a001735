/**
 Model of the registration endpoint: the POST handler that validates a
 submission, refuses a second sign-up for the same webinar, and stores the
 new record, with the document collection kept as an in-memory sequence.
 The liveness and preflight handlers are constant responses.
 */
module RegisterRoute {
  import opened RegistrationModel

  datatype Option<T> = None | Some(value: T)

  /** The request body once the handler has tried to parse it. */
  datatype Body =
    | Unparseable            // parsing the body as JSON fails
    | NullBody               // the JSON literal null: reading any field of it throws
    | Fields(data: Payload)  // any other JSON value; a non-object reads every field as absent

  /** The infrastructure step that fails during a request, if any. */
  datatype Fault = NoFault | ConnectFails | FindFails | InsertFails

  /** The outcome of one call into the document store. */
  datatype StoreResult<T> = Done(value: T) | StoreError

  /** `EmptyObject` is the JSON object `{}`. */
  datatype ResponseBody =
    | EmptyObject
    | HealthBody(status: string, message: string)
    | Reply(success: bool, message: string, errors: Option<seq<string>>, webinarInfo: Option<WebinarInfo>)

  datatype Response = Response(status: nat, body: ResponseBody)

  function ValidationFailed(errors: seq<string>): Response {
    Response(400, Reply(false, "Validation failed", Some(errors), None))
  }

  const AlreadyRegistered: Response :=
    Response(409, Reply(false, "You are already registered for this webinar", None, None))

  const InternalError: Response :=
    Response(500, Reply(false, "An error occurred during registration", None, None))

  function Success(info: WebinarInfo): Response {
    Response(200, Reply(true, "Registration successful", None, Some(info)))
  }

  /** The preflight handler: 200 with the empty JSON object `{}`. */
  function Options(): (r: Response)
    ensures r.status == 200 && r.body == EmptyObject
  {
    Response(200, EmptyObject)
  }

  /** The liveness handler: 200 reporting that the API is running. */
  function Get(): (r: Response)
    ensures r.status == 200 && r.body == HealthBody("ok", "API is running")
  {
    Response(200, HealthBody("ok", "API is running"))
  }

  /* ---------------------------------------------------------------------
     The store and its invariants
     --------------------------------------------------------------------- */

  /** Record `r` is a sign-up of `email` for the webinar titled `title`. */
  predicate SameSignup(r: Registration, email: Value, title: string) {
    r.email == email && r.webinarInfo.title == title
  }

  /** The duplicate query: some stored record has this email and title. */
  predicate HasSignup(s: seq<Registration>, email: Value, title: string) {
    exists i | 0 <= i < |s| :: SameSignup(s[i], email, title)
  }

  /** Number of stored records with this email and title. */
  function CountSignups(s: seq<Registration>, email: Value, title: string): (n: nat)
    ensures n <= |s|
    ensures n == 0 <==> !HasSignup(s, email, title)
  {
    if s == [] then 0
    else CountSignups(s[..|s| - 1], email, title) + (if SameSignup(s[|s| - 1], email, title) then 1 else 0)
  }

  /** No two stored records share an (email, webinar title) pair. */
  predicate Unique(s: seq<Registration>) {
    forall i, j | 0 <= i < j < |s| ::
      !(s[i].email == s[j].email && s[i].webinarInfo.title == s[j].webinarInfo.title)
  }

  /** Every stored record was built from an accepted payload by the builder. */
  predicate AllAdmitted(s: seq<Registration>) {
    forall i | 0 <= i < |s| :: CatalogEntry(s[i]) && Acceptable(PayloadOf(s[i]))
  }

  /** Under the uniqueness invariant a pair is stored at most once. */
  lemma {:induction false} UniqueCountAtMostOne(s: seq<Registration>, email: Value, title: string)
    requires Unique(s)
    ensures CountSignups(s, email, title) <= 1
  {
    if s != [] {
      var init := s[..|s| - 1];
      assert Unique(init);
      UniqueCountAtMostOne(init, email, title);
    }
  }

  /** Appending a record adds one to its own pair's count only. */
  lemma AppendCount(s: seq<Registration>, r: Registration, email: Value, title: string)
    ensures CountSignups(s + [r], email, title)
      == CountSignups(s, email, title) + (if SameSignup(r, email, title) then 1 else 0)
  {
    assert (s + [r])[..|s + [r]| - 1] == s;
  }

  /** Appending a record whose pair is not yet stored keeps the store unique. */
  lemma AppendUnique(s: seq<Registration>, r: Registration)
    requires Unique(s)
    requires !HasSignup(s, r.email, r.webinarInfo.title)
    ensures Unique(s + [r])
  {
    var t := s + [r];
    forall i, j | 0 <= i < j < |t|
      ensures !(t[i].email == t[j].email && t[i].webinarInfo.title == t[j].webinarInfo.title)
    {
      if j == |s| {
        assert t[i] == s[i] && t[j] == r;
        assert !SameSignup(s[i], r.email, r.webinarInfo.title);
      }
    }
  }

  /* ---------------------------------------------------------------------
     The handler as a function of the store
     --------------------------------------------------------------------- */

  /** The response to a request and the store after it. */
  datatype Outcome = Outcome(response: Response, store: seq<Registration>)

  /** The title the duplicate query looks for. */
  function TitleFor(data: Payload): (t: string)
    requires IsCatalogKey(data.topic)
    ensures CreateRegistration(data, 0).webinarInfo.title == t
  {
    Topics[data.topic.s].title
  }

  /** What one POST does, step by step: parse, validate, connect, look for an
      existing sign-up, build and insert. A fault at a step the request reaches
      answers 500; no fault ever writes to the store. */
  function Handle(s: seq<Registration>, body: Body, now: int, fault: Fault): (out: Outcome)
    ensures out.response.status in {200, 400, 409, 500}
    ensures out.store == s || (|out.store| == |s| + 1 && out.store[..|s|] == s)
  {
    match body
    case Unparseable => Outcome(InternalError, s)
    case NullBody => Outcome(InternalError, s)
    case Fields(data) =>
      var errors := ValidationErrors(data);
      if errors != [] then Outcome(ValidationFailed(errors), s)
      else if fault == ConnectFails || fault == FindFails then Outcome(InternalError, s)
      else
        ValidIffAcceptable(data);
        if HasSignup(s, data.email, TitleFor(data)) then Outcome(AlreadyRegistered, s)
        else if fault == InsertFails then Outcome(InternalError, s)
        else
          var registration := CreateRegistration(data, now);
          Outcome(Success(registration.webinarInfo), s + [registration])
  }

  /** Invalid input answers 400 with the validator's list and writes nothing. */
  lemma InvalidInputRejected(s: seq<Registration>, data: Payload, now: int, fault: Fault)
    requires !Acceptable(data)
    ensures Handle(s, Fields(data), now, fault) == Outcome(ValidationFailed(ValidationErrors(data)), s)
    ensures ValidationErrors(data) != []
  {
    ValidIffAcceptable(data);
  }

  /** A submission for a topic outside the catalog answers 400 naming the bad
      topic, and the store is not written. */
  lemma UnknownTopicRejected(s: seq<Registration>, data: Payload, now: int, fault: Fault)
    requires data.topic == Str("unknown")
    ensures var out := Handle(s, Fields(data), now, fault);
      out.response.status == 400 && out.store == s &&
      out.response.body.errors.Some? &&
      "Invalid topic selection" in out.response.body.errors.value
  {
    TopicSelectionReported(data);
  }

  /** An accepted submission whose (email, title) is already stored answers
      409 and writes nothing, unless the connection or the query fails. */
  lemma DuplicateRejected(s: seq<Registration>, data: Payload, now: int, fault: Fault)
    requires Acceptable(data)
    requires HasSignup(s, data.email, TitleFor(data))
    requires fault == NoFault || fault == InsertFails
    ensures Handle(s, Fields(data), now, fault) == Outcome(AlreadyRegistered, s)
  {
    ValidIffAcceptable(data);
  }

  /** An accepted new sign-up answers 200 with the catalog's webinar details for
      the topic and appends exactly the built record; earlier records stay. */
  lemma NewSignupStored(s: seq<Registration>, data: Payload, now: int)
    requires Acceptable(data)
    requires !HasSignup(s, data.email, TitleFor(data))
    ensures var out := Handle(s, Fields(data), now, NoFault);
      out.response == Success(Topics[data.topic.s]) &&
      |out.store| == |s| + 1 && out.store[..|s|] == s &&
      out.store[|s|] == CreateRegistration(data, now)
  {
    ValidIffAcceptable(data);
    assert (s + [CreateRegistration(data, now)])[..|s|] == s;
  }

  /** On an accepted payload, a failing connection or duplicate query, or a
      failing insert of a new sign-up, answers 500 with the generic message
      and writes nothing. */
  lemma StoreFaultAnswers500(s: seq<Registration>, data: Payload, now: int, fault: Fault)
    requires Acceptable(data)
    requires fault == ConnectFails || fault == FindFails
          || (fault == InsertFails && !HasSignup(s, data.email, TitleFor(data)))
    ensures Handle(s, Fields(data), now, fault) == Outcome(InternalError, s)
  {
    ValidIffAcceptable(data);
  }

  /** A fault at a step the request reaches answers 500 with the generic
      message; no fault ever writes to the store; the store changes only on a
      200, and then by exactly one appended record. */
  lemma HandleOutcomes(s: seq<Registration>, body: Body, now: int, fault: Fault)
    ensures var out := Handle(s, body, now, fault);
      out.response.status in {200, 400, 409, 500} &&
      (body.Unparseable? || body.NullBody? ==> out.response == InternalError) &&
      (out.response.status == 500 ==> out.response == InternalError) &&
      (fault != NoFault ==> out.store == s && out.response.status != 200) &&
      (out.response.status != 200 ==> out.store == s) &&
      (out.response.status == 200 ==> |out.store| == |s| + 1 && out.store[..|s|] == s)
  {
    var out := Handle(s, body, now, fault);
    if out.response.status == 200 {
      var data := body.data;
      ValidIffAcceptable(data);
      assert (s + [CreateRegistration(data, now)])[..|s|] == s;
    }
  }

  /** The handler keeps the store free of duplicate sign-ups and keeps every
      record a catalog entry built from an accepted payload. */
  lemma HandlePreservesInvariants(s: seq<Registration>, body: Body, now: int, fault: Fault)
    ensures Unique(s) ==> Unique(Handle(s, body, now, fault).store)
    ensures AllAdmitted(s) ==> AllAdmitted(Handle(s, body, now, fault).store)
  {
    if body.Fields? && Handle(s, body, now, fault).store != s {
      var data := body.data;
      ValidIffAcceptable(data);
      var registration := CreateRegistration(data, now);
      CreatedRecordAcceptable(data, now);
      var t := s + [registration];
      if Unique(s) {
        AppendUnique(s, registration);
      }
      if AllAdmitted(s) {
        forall i | 0 <= i < |t| ensures CatalogEntry(t[i]) && Acceptable(PayloadOf(t[i])) {
          if i < |s| { assert t[i] == s[i]; }
        }
      }
    }
  }

  /** Submitting the same accepted payload twice: the second answer is 409,
      the second call writes nothing, and on a unique store exactly one record
      for the pair remains. */
  lemma ResubmissionConflicts(s: seq<Registration>, data: Payload, now1: int, now2: int)
    requires Acceptable(data)
    ensures var first := Handle(s, Fields(data), now1, NoFault);
      var second := Handle(first.store, Fields(data), now2, NoFault);
      second == Outcome(AlreadyRegistered, first.store) &&
      (Unique(s) ==> CountSignups(second.store, data.email, TitleFor(data)) == 1)
  {
    ValidIffAcceptable(data);
    var title := TitleFor(data);
    var first := Handle(s, Fields(data), now1, NoFault);
    if HasSignup(s, data.email, title) {
      if Unique(s) {
        UniqueCountAtMostOne(s, data.email, title);
      }
    } else {
      var registration := CreateRegistration(data, now1);
      assert first.store == s + [registration];
      AppendCount(s, registration, data.email, title);
      assert first.store[|s|] == registration;
      assert HasSignup(first.store, data.email, title);
    }
  }

  /** The sample submission name "A", email "a@b.com", phone "1", topic
      "finance", consent true passes the validator. */
  lemma SamplePayloadAcceptable(data: Payload)
    requires data.name == Str("A") && data.email == Str("a@b.com") && data.phone == Str("1")
    requires data.topic == Str("finance") && data.consentGiven == Bool(true)
    ensures Acceptable(data)
  {
    SampleEmailShape(data.email.s);
  }

  /** An accepted "finance" submission on an empty store answers 200 with the
      financial planning webinar and stores one record. */
  lemma FinanceSignupAccepted(data: Payload, now: int)
    requires Acceptable(data) && data.topic == Str("finance")
    ensures var out := Handle([], Fields(data), now, NoFault);
      out.response.status == 200 &&
      out.response.body.webinarInfo.Some? &&
      out.response.body.webinarInfo.value.title == "Financial Planning for International Education" &&
      |out.store| == 1
  {
    NewSignupStored([], data, now);
  }

  lemma SampleEmailShape(e: string)
    requires e == "a@b.com"
    ensures EmailShape(e)
  {
    assert e[..1] == "a" && e[2..3] == "b" && e[4..] == "com";
    PatternHasShape(e, 1, 3);
  }

  /* ---------------------------------------------------------------------
     The handler with its store
     --------------------------------------------------------------------- */

  class RegistrationEndpoint {
    /** The registrations collection. */
    var store: seq<Registration>

    /** The invariant the handler maintains on its own. */
    ghost predicate Valid()
      reads this
    {
      Unique(store) && AllAdmitted(store)
    }

    constructor (initial: seq<Registration>)
      ensures store == initial
      ensures Unique(initial) && AllAdmitted(initial) ==> Valid()
    {
      store := initial;
    }

    /** The duplicate query; a failing store answers `StoreError`. */
    method FindOne(email: Value, title: string, fails: bool) returns (r: StoreResult<bool>)
      ensures fails ==> r == StoreError
      ensures !fails ==> r.Done? && (r.value <==> HasSignup(store, email, title))
    {
      if fails {
        return StoreError;
      }
      r := Done(HasSignup(store, email, title));
    }

    /** Inserts one document; a failing insert leaves the collection as it was. */
    method InsertOne(registration: Registration, fails: bool) returns (r: StoreResult<()>)
      modifies this
      ensures fails ==> r == StoreError && store == old(store)
      ensures !fails ==> r == Done(()) && store == old(store) + [registration]
    {
      if fails {
        return StoreError;
      }
      store := store + [registration];
      r := Done(());
    }

    /** The POST handler. */
    method Post(body: Body, now: int, fault: Fault) returns (r: Response)
      modifies this
      ensures Outcome(r, store) == Handle(old(store), body, now, fault)
      ensures r.status in {200, 400, 409, 500}
      ensures r.status != 200 ==> store == old(store)
      ensures r.status == 200 ==> |store| == |old(store)| + 1 && store[..|old(store)|] == old(store)
      ensures old(Valid()) ==> Valid()
    {
      HandleOutcomes(store, body, now, fault);
      HandlePreservesInvariants(store, body, now, fault);
      if body.Unparseable? || body.NullBody? {
        return InternalError;
      }
      var data := body.data;
      var valid, errors := Validate(data);
      if !valid {
        return ValidationFailed(errors);
      }
      if fault == ConnectFails {
        return InternalError;
      }
      ValidIffAcceptable(data);
      var existing := FindOne(data.email, Topics[data.topic.s].title, fault == FindFails);
      if existing.StoreError? {
        return InternalError;
      }
      if existing.value {
        return AlreadyRegistered;
      }
      var registration := CreateRegistration(data, now);
      var inserted := InsertOne(registration, fault == InsertFails);
      if inserted.StoreError? {
        return InternalError;
      }
      r := Success(registration.webinarInfo);
    }
  }
}
