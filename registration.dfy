/**
 Model of the registration data module: the webinar topic catalog, the
 validator that collects error messages for a submitted payload, and the
 builder that turns a validated payload into the stored registration record.
 */
module RegistrationModel {

  /* ---------------------------------------------------------------------
     Values read from the request body
     --------------------------------------------------------------------- */

  /** A field of the parsed JSON body. `Absent` is a field that is not there
      (JavaScript `undefined`); `Compound` stands for any array or object. */
  datatype Value =
    | Absent
    | Null
    | Bool(b: bool)
    | Num(n: real)
    | Str(s: string)
    | Compound

  /** JavaScript truthiness: `undefined`, `null`, `false`, `0` and `""` are
      falsy, everything else (including every array and object) is truthy. */
  predicate Truthy(v: Value): (r: bool)
    ensures !r <==> v == Absent || v == Null || v == Bool(false) || v == Num(0.0) || v == Str("")
  {
    match v
    case Absent => false
    case Null => false
    case Bool(b) => b
    case Num(n) => n != 0.0
    case Str(s) => s != ""
    case Compound => true
  }

  /** The fields of the submitted body that the validator and the builder read. */
  datatype Payload = Payload(name: Value, email: Value, phone: Value, topic: Value, consentGiven: Value)

  /* ---------------------------------------------------------------------
     The registration record and the topic catalog
     --------------------------------------------------------------------- */

  datatype WebinarInfo = WebinarInfo(title: string, date: string, time: string)

  datatype Status = Registered | Attended | NoShow

  /** The stored document. Name, email and phone are copied from the payload
      as they are, so they keep the payload's value type. */
  datatype Registration = Registration(
    name: Value,
    email: Value,
    phone: Value,
    topic: string,
    consentGiven: bool,
    registrationDate: int,
    webinarInfo: WebinarInfo,
    status: Status)

  /** The static catalog from topic identifier to webinar details. */
  const Topics: map<string, WebinarInfo> := map[
    "uk-education" := WebinarInfo("Education in the UK", "May 3, 2025", "7:00 PM IST"),
    "finance" := WebinarInfo("Financial Planning for International Education", "May 10, 2025", "7:00 PM IST"),
    "salesforce" := WebinarInfo("Salesforce Careers: Skills & Opportunities", "May 17, 2025", "7:00 PM IST"),
    "fig-regime" := WebinarInfo("Navigate the New UK Foreign Income and Gains (FIG) Regime in 2025", "April 27, 2025", "8:00 PM UK")
  ]

  /** The catalog holds exactly four topics, and "finance" is the financial planning webinar. */
  lemma CatalogContents()
    ensures Topics.Keys == {"uk-education", "finance", "salesforce", "fig-regime"}
    ensures |Topics| == 4
    ensures Topics["finance"].title == "Financial Planning for International Education"
  {
  }

  /** No two catalog topics share a title, so a (email, title) pair names one
      (email, topic) pair. */
  lemma TitlesIdentifyTopics(k1: string, k2: string)
    requires k1 in Topics && k2 in Topics
    ensures Topics[k1].title == Topics[k2].title <==> k1 == k2
  {
  }

  /** The topic lookup succeeds. The model lets only a string pass, and only
      one of the four catalog keys; an array whose string form is a key, or a
      key found on the object prototype, is not modelled (see README). */
  predicate IsCatalogKey(v: Value): (r: bool)
    ensures r <==> (v == Str("uk-education") || v == Str("finance") ||
                    v == Str("salesforce") || v == Str("fig-regime"))
  {
    v.Str? && v.s in Topics
  }

  /* ---------------------------------------------------------------------
     The email shape
     --------------------------------------------------------------------- */

  /** The characters the pattern's `\s` class stands for in JavaScript. */
  predicate IsWhitespace(c: char) {
    c == ' ' || c == '\t' || c == '\n' || c == '\r' || c == '\U{000B}' || c == '\U{000C}'
    || c == '\U{00A0}' || c == '\U{1680}' || ('\U{2000}' <= c <= '\U{200A}')
    || c == '\U{2028}' || c == '\U{2029}' || c == '\U{202F}' || c == '\U{205F}'
    || c == '\U{3000}' || c == '\U{FEFF}'
  }

  predicate NoWhitespace(s: string) {
    forall i | 0 <= i < |s| :: !IsWhitespace(s[i])
  }

  /** Number of occurrences of `c` in `s`. */
  function Count(s: string, c: char): (n: nat)
    ensures n <= |s|
    ensures n == 0 <==> c !in s
  {
    if s == [] then 0
    else (if s[0] == c then 1 else 0) + Count(s[1..], c)
  }

  /** Position of the first `c` in `s`, or `|s|` when there is none. */
  function IndexOf(s: string, c: char): (k: nat)
    ensures k <= |s|
    ensures c !in s[..k]
    ensures k < |s| ==> s[k] == c
    ensures k == |s| <==> c !in s
  {
    if s == [] then 0
    else if s[0] == c then 0
    else 1 + IndexOf(s[1..], c)
  }

  /** A '.' that is neither the first nor the last character. */
  predicate HasInnerDot(d: string) {
    exists i | 0 < i < |d| - 1 :: d[i] == '.'
  }

  /** The shape an email must have: no whitespace, exactly one '@', a
      non-empty part before it, and a part after it holding a '.' that is
      neither its first nor its last character. */
  predicate EmailShape(e: string): (r: bool)
    ensures r ==> 5 <= |e| && '@' in e
  {
    NoWhitespace(e) && Count(e, '@') == 1 &&
    var k := IndexOf(e, '@');
    0 < k && HasInnerDot(e[k + 1..])
  }

  /** A character of the pattern's `[^\s@]` class. */
  predicate Plain(c: char) {
    c != '@' && !IsWhitespace(c)
  }

  predicate AllPlain(s: string) {
    forall i | 0 <= i < |s| :: Plain(s[i])
  }

  /** What the source's anchored email pattern matches: the whole string
      splits at an '@' (index i) and a later '.' (index j) into three
      non-empty runs of characters that are neither whitespace nor '@'. */
  ghost predicate MatchesEmailPattern(e: string) {
    exists i, j | 0 < i && i + 1 < j && j + 1 < |e| ::
      e[i] == '@' && e[j] == '.' &&
      AllPlain(e[..i]) && AllPlain(e[i + 1..j]) && AllPlain(e[j + 1..])
  }

  lemma {:induction false} CountConcat(a: string, b: string, c: char)
    ensures Count(a + b, c) == Count(a, c) + Count(b, c)
  {
    if a == [] {
      assert a + b == b;
    } else {
      assert (a + b)[1..] == a[1..] + b;
      CountConcat(a[1..], b, c);
    }
  }

  /** When `c` occurs once, its first position is its only position. */
  lemma OnlyOccurrence(s: string, c: char)
    requires Count(s, c) == 1
    ensures forall m | 0 <= m < |s| && s[m] == c :: m == IndexOf(s, c)
  {
    var k := IndexOf(s, c);
    assert s == s[..k] + s[k..];
    assert s[k..] == [s[k]] + s[k + 1..];
    CountConcat(s[..k], s[k..], c);
    CountConcat([s[k]], s[k + 1..], c);
    assert c !in s[k + 1..];
  }

  lemma PlainRuns(s: string)
    requires AllPlain(s)
    ensures '@' !in s && NoWhitespace(s) && Count(s, '@') == 0
  {
    assert forall m | 0 <= m < |s| :: s[m] != '@';
  }

  /** Forward half: a string of the hand-written shape matches the pattern. */
  lemma ShapeMatchesPattern(e: string)
    requires EmailShape(e)
    ensures MatchesEmailPattern(e)
  {
    var k := IndexOf(e, '@');
    var d := e[k + 1..];
    var i0 :| 0 < i0 < |d| - 1 && d[i0] == '.';
    var j := k + 1 + i0;
    OnlyOccurrence(e, '@');
    assert e[j] == '.';
    assert forall m | 0 <= m < |e| && m != k :: Plain(e[m]);
    assert AllPlain(e[..k]);
    assert AllPlain(e[k + 1..j]);
    assert AllPlain(e[j + 1..]);
  }

  /** Backward half: a string the pattern matches has the hand-written shape. */
  lemma PatternHasShape(e: string, i: nat, j: nat)
    requires 0 < i && i + 1 < j && j + 1 < |e|
    requires e[i] == '@' && e[j] == '.'
    requires AllPlain(e[..i]) && AllPlain(e[i + 1..j]) && AllPlain(e[j + 1..])
    ensures EmailShape(e)
  {
    var a, b, c := e[..i], e[i + 1..j], e[j + 1..];
    PlainRuns(a);
    PlainRuns(b);
    PlainRuns(c);
    var tail := [e[j]] + c;
    var mid := b + tail;
    var rest := [e[i]] + mid;
    assert e == a + rest;
    CountConcat(a, rest, '@');
    CountConcat([e[i]], mid, '@');
    CountConcat(b, tail, '@');
    CountConcat([e[j]], c, '@');
    assert Count(e, '@') == 1;
    assert NoWhitespace(e) by {
      forall m | 0 <= m < |e| ensures !IsWhitespace(e[m]) {
        if m < i {
          assert e[m] == a[m];
        } else if i < m < j {
          assert e[m] == b[m - i - 1];
        } else if j < m {
          assert e[m] == c[m - j - 1];
        }
      }
    }
    var k := IndexOf(e, '@');
    var d := e[k + 1..];
    assert d[j - i - 1] == '.';
  }

  /** The hand-written shape and the pattern accept the same strings. */
  lemma EmailShapeIsPattern(e: string)
    ensures EmailShape(e) <==> MatchesEmailPattern(e)
  {
    if EmailShape(e) {
      ShapeMatchesPattern(e);
    }
    if MatchesEmailPattern(e) {
      var i, j :| 0 < i && i + 1 < j && j + 1 < |e| &&
        e[i] == '@' && e[j] == '.' &&
        AllPlain(e[..i]) && AllPlain(e[i + 1..j]) && AllPlain(e[j + 1..]);
      PatternHasShape(e, i, j);
    }
  }

  /** The format test applied to a truthy email. The model lets only a string
      pass and treats every `Compound` as failing; an array whose string form
      matches is not modelled (see README). */
  predicate EmailFormatOk(v: Value): (r: bool)
    ensures r <==> v.Str? && MatchesEmailPattern(v.s)
  {
    v.Str? && (EmailShapeIsPattern(v.s); EmailShape(v.s))
  }

  /* ---------------------------------------------------------------------
     The validator
     --------------------------------------------------------------------- */

  /** The six independent checks, one per error message. */
  datatype Check = NameRequired | EmailRequired | PhoneRequired | TopicRequired | EmailFormat | TopicSelection

  /** The order in which the checks report. */
  const CheckOrder: seq<Check> := [NameRequired, EmailRequired, PhoneRequired, TopicRequired, EmailFormat, TopicSelection]

  function Message(c: Check): string {
    match c
    case NameRequired => "Name is required"
    case EmailRequired => "Email is required"
    case PhoneRequired => "Phone is required"
    case TopicRequired => "Topic is required"
    case EmailFormat => "Invalid email format"
    case TopicSelection => "Invalid topic selection"
  }

  /** Whether check `c` reports an error for payload `p`. The format and
      catalog checks only look at a field that is present. */
  predicate Fails(p: Payload, c: Check) {
    match c
    case NameRequired => !Truthy(p.name)
    case EmailRequired => !Truthy(p.email)
    case PhoneRequired => !Truthy(p.phone)
    case TopicRequired => !Truthy(p.topic)
    case EmailFormat => Truthy(p.email) && !EmailFormatOk(p.email)
    case TopicSelection => Truthy(p.topic) && !IsCatalogKey(p.topic)
  }

  /** The checks of `cs` that fail for `p`, in the order of `cs`. */
  function Failing(p: Payload, cs: seq<Check>): (r: seq<Check>)
    ensures |r| <= |cs|
    ensures forall c :: c in r <==> c in cs && Fails(p, c)
  {
    if cs == [] then []
    else (if Fails(p, cs[0]) then [cs[0]] else []) + Failing(p, cs[1..])
  }

  function Messages(cs: seq<Check>): (ms: seq<string>)
    ensures |ms| == |cs|
    ensures forall i | 0 <= i < |cs| :: ms[i] == Message(cs[i])
  {
    if cs == [] then [] else [Message(cs[0])] + Messages(cs[1..])
  }

  /** The error list the validator promises: the message of every failing
      check, in the fixed check order. */
  function ValidationErrors(p: Payload): seq<string> {
    Messages(Failing(p, CheckOrder))
  }

  /** The six messages in report order. */
  function AllMessages(): seq<string> {
    Messages(CheckOrder)
  }

  /** A payload the validator accepts, stated field by field. */
  predicate Acceptable(p: Payload) {
    Truthy(p.name) && Truthy(p.email) && Truthy(p.phone) && Truthy(p.topic)
    && EmailFormatOk(p.email) && IsCatalogKey(p.topic)
  }

  /** The checks, as the validator runs them: each statement pushes one message. */
  method Validate(data: Payload) returns (valid: bool, errors: seq<string>)
    ensures errors == ValidationErrors(data)
    ensures valid <==> errors == []
  {
    errors := [];
    if !Truthy(data.name) { errors := errors + [Message(NameRequired)]; }
    assert errors == Reported(data, NameRequired);
    if !Truthy(data.email) { errors := errors + [Message(EmailRequired)]; }
    assert errors == Reported(data, NameRequired) + Reported(data, EmailRequired);
    if !Truthy(data.phone) { errors := errors + [Message(PhoneRequired)]; }
    assert errors == Reported(data, NameRequired) + Reported(data, EmailRequired) + Reported(data, PhoneRequired);
    if !Truthy(data.topic) { errors := errors + [Message(TopicRequired)]; }
    ghost var required := errors;
    assert required == Reported(data, NameRequired) + Reported(data, EmailRequired)
      + Reported(data, PhoneRequired) + Reported(data, TopicRequired);
    if Truthy(data.email) && !EmailFormatOk(data.email) {
      errors := errors + [Message(EmailFormat)];
    }
    assert errors == required + Reported(data, EmailFormat);
    if Truthy(data.topic) && !IsCatalogKey(data.topic) {
      errors := errors + [Message(TopicSelection)];
    }
    assert errors == required + Reported(data, EmailFormat) + Reported(data, TopicSelection);
    ValidationErrorsUnfold(data);
    valid := |errors| == 0;
  }

  /** The singleton list of `c`'s message when `c` fails, else empty. */
  function Reported(p: Payload, c: Check): seq<string> {
    if Fails(p, c) then [Message(c)] else []
  }

  lemma {:induction false} MessagesConcat(a: seq<Check>, b: seq<Check>)
    ensures Messages(a + b) == Messages(a) + Messages(b)
  {
    if a == [] {
      assert a + b == b;
    } else {
      assert (a + b)[1..] == a[1..] + b;
      MessagesConcat(a[1..], b);
    }
  }

  lemma FailingCons(p: Payload, c: Check, cs: seq<Check>)
    ensures Messages(Failing(p, [c] + cs)) == Reported(p, c) + Messages(Failing(p, cs))
  {
    assert ([c] + cs)[0] == c && ([c] + cs)[1..] == cs;
    MessagesConcat(if Fails(p, c) then [c] else [], Failing(p, cs));
  }

  /** The error list, check by check. */
  lemma ValidationErrorsUnfold(p: Payload)
    ensures ValidationErrors(p) ==
      Reported(p, NameRequired) + Reported(p, EmailRequired) + Reported(p, PhoneRequired)
      + Reported(p, TopicRequired) + Reported(p, EmailFormat) + Reported(p, TopicSelection)
  {
    var r1, r2, r3 := Reported(p, NameRequired), Reported(p, EmailRequired), Reported(p, PhoneRequired);
    var r4, r5, r6 := Reported(p, TopicRequired), Reported(p, EmailFormat), Reported(p, TopicSelection);
    var c6: seq<Check> := [TopicSelection];
    var c5 := [EmailFormat] + c6;
    var c4 := [TopicRequired] + c5;
    var c3 := [PhoneRequired] + c4;
    var c2 := [EmailRequired] + c3;
    assert CheckOrder == [NameRequired] + c2;
    assert c6 == [TopicSelection] + [];
    FailingCons(p, TopicSelection, []);
    assert Messages(Failing(p, c6)) == r6;
    FailingCons(p, EmailFormat, c6);
    assert Messages(Failing(p, c5)) == r5 + r6;
    FailingCons(p, TopicRequired, c5);
    assert Messages(Failing(p, c4)) == r4 + (r5 + r6);
    FailingCons(p, PhoneRequired, c4);
    assert Messages(Failing(p, c3)) == r3 + (r4 + (r5 + r6));
    FailingCons(p, EmailRequired, c3);
    assert Messages(Failing(p, c2)) == r2 + (r3 + (r4 + (r5 + r6)));
    FailingCons(p, NameRequired, c2);
    assert ValidationErrors(p) == r1 + (r2 + (r3 + (r4 + (r5 + r6))));
    calc {
      r1 + (r2 + (r3 + (r4 + (r5 + r6))));
      { Assoc(r1, r2, r3 + (r4 + (r5 + r6))); }
      (r1 + r2) + (r3 + (r4 + (r5 + r6)));
      { Assoc(r1 + r2, r3, r4 + (r5 + r6)); }
      (r1 + r2 + r3) + (r4 + (r5 + r6));
      { Assoc(r1 + r2 + r3, r4, r5 + r6); }
      (r1 + r2 + r3 + r4) + (r5 + r6);
      { Assoc(r1 + r2 + r3 + r4, r5, r6); }
      r1 + r2 + r3 + r4 + r5 + r6;
    }
  }

  lemma Assoc<T>(a: seq<T>, b: seq<T>, c: seq<T>)
    ensures a + (b + c) == (a + b) + c
  {
  }

  lemma MessageInjective(c1: Check, c2: Check)
    ensures Message(c1) == Message(c2) <==> c1 == c2
  {
    if c1 != c2 {
      var m1, m2 := Message(c1), Message(c2);
      assert |m1| != |m2| || m1[0] != m2[0];
    }
  }

  lemma MessagesMembership(cs: seq<Check>, c: Check)
    ensures Message(c) in Messages(cs) <==> c in cs
  {
    if Message(c) in Messages(cs) {
      var i :| 0 <= i < |cs| && Messages(cs)[i] == Message(c);
      MessageInjective(c, cs[i]);
    }
  }

  /** A message is reported exactly when its check fails. */
  lemma ErrorReported(p: Payload, c: Check)
    ensures Message(c) in ValidationErrors(p) <==> Fails(p, c)
  {
    MessagesMembership(Failing(p, CheckOrder), c);
    assert c in CheckOrder;
  }

  /** Required-field checks accumulate: every falsy field of name, email,
      phone and topic contributes its own message, whatever the others are. */
  lemma RequiredFieldsReported(p: Payload)
    ensures "Name is required" in ValidationErrors(p) <==> !Truthy(p.name)
    ensures "Email is required" in ValidationErrors(p) <==> !Truthy(p.email)
    ensures "Phone is required" in ValidationErrors(p) <==> !Truthy(p.phone)
    ensures "Topic is required" in ValidationErrors(p) <==> !Truthy(p.topic)
  {
    ErrorReported(p, NameRequired);
    ErrorReported(p, EmailRequired);
    ErrorReported(p, PhoneRequired);
    ErrorReported(p, TopicRequired);
  }

  /** The format error appears exactly for a present email of the wrong shape;
      a missing email is reported as missing and never also as malformed. */
  lemma EmailFormatReported(p: Payload)
    ensures "Invalid email format" in ValidationErrors(p) <==> Truthy(p.email) && !EmailFormatOk(p.email)
    ensures !Truthy(p.email) ==> "Invalid email format" !in ValidationErrors(p)
  {
    ErrorReported(p, EmailFormat);
  }

  /** The topic error appears exactly for a present topic outside the catalog;
      a missing topic never also yields it. */
  lemma TopicSelectionReported(p: Payload)
    ensures "Invalid topic selection" in ValidationErrors(p) <==> Truthy(p.topic) && !IsCatalogKey(p.topic)
    ensures !Truthy(p.topic) ==> "Invalid topic selection" !in ValidationErrors(p)
  {
    ErrorReported(p, TopicSelection);
  }

  /** `a` can be obtained from `b` by deleting elements. */
  ghost predicate Subsequence<T>(a: seq<T>, b: seq<T>)
    decreases |b|
  {
    if a == [] then true
    else if b == [] then false
    else (a[0] == b[0] && Subsequence(a[1..], b[1..])) || Subsequence(a, b[1..])
  }

  lemma {:induction false} FailingIsSubsequence(p: Payload, cs: seq<Check>)
    ensures Subsequence(Messages(Failing(p, cs)), Messages(cs))
    decreases |cs|
  {
    if cs != [] {
      FailingIsSubsequence(p, cs[1..]);
      FailingCons(p, cs[0], cs[1..]);
      assert [cs[0]] + cs[1..] == cs;
      var rest := Messages(Failing(p, cs[1..]));
      var all := Messages(cs);
      assert all[1..] == Messages(cs[1..]);
      if Fails(p, cs[0]) {
        assert ([Message(cs[0])] + rest)[1..] == rest;
      } else {
        assert Reported(p, cs[0]) + rest == rest;
        SubsequenceDropHead(rest, all);
      }
    }
  }

  lemma {:induction false} SubsequenceDropHead<T>(a: seq<T>, b: seq<T>)
    requires b != [] && Subsequence(a, b[1..])
    ensures Subsequence(a, b)
  {
  }

  /** Errors appear in the fixed order Name, Email, Phone, Topic, format,
      topic selection: the list is the six messages with some left out. */
  lemma ErrorsInFixedOrder(p: Payload)
    ensures Subsequence(ValidationErrors(p), AllMessages())
    ensures AllMessages() == ["Name is required", "Email is required", "Phone is required",
                              "Topic is required", "Invalid email format", "Invalid topic selection"]
  {
    FailingIsSubsequence(p, CheckOrder);
  }

  /** Each field contributes at most one message, so at most four are reported. */
  lemma AtMostFourErrors(p: Payload)
    ensures |ValidationErrors(p)| <= 4
  {
    ValidationErrorsUnfold(p);
    var r1, r2, r3 := Reported(p, NameRequired), Reported(p, EmailRequired), Reported(p, PhoneRequired);
    var r4, r5, r6 := Reported(p, TopicRequired), Reported(p, EmailFormat), Reported(p, TopicSelection);
    assert |r1| <= 1 && |r3| <= 1;
    assert |r2| + |r5| <= 1;
    assert |r4| + |r6| <= 1;
    assert |ValidationErrors(p)| == |r1| + |r2| + |r3| + |r4| + |r5| + |r6|;
  }

  /** The validator accepts exactly the acceptable payloads. */
  lemma ValidIffAcceptable(p: Payload)
    ensures ValidationErrors(p) == [] <==> Acceptable(p)
  {
    ValidationErrorsUnfold(p);
  }

  /* ---------------------------------------------------------------------
     The builder
     --------------------------------------------------------------------- */

  /** The payload a record was built from, with consent as a strict boolean. */
  function PayloadOf(r: Registration): Payload {
    Payload(r.name, r.email, r.phone, Str(r.topic), Bool(r.consentGiven))
  }

  /** A record as the builder makes it: its webinar details are the catalog's
      entry for its topic and its status is `Registered`. */
  predicate CatalogEntry(r: Registration) {
    r.topic in Topics && r.webinarInfo == Topics[r.topic] && r.status == Registered
  }

  /** Builds the record for a payload whose topic is in the catalog; `now` is
      the creation time. */
  function CreateRegistration(data: Payload, now: int): (r: Registration)
    requires IsCatalogKey(data.topic)
    ensures CatalogEntry(r) && r.topic == data.topic.s
    ensures PayloadOf(r) == data.(consentGiven := Bool(Truthy(data.consentGiven)))
    ensures r.consentGiven == Truthy(data.consentGiven)
    ensures r.registrationDate == now
  {
    Registration(data.name, data.email, data.phone, data.topic.s,
                 Truthy(data.consentGiven), now, Topics[data.topic.s], Registered)
  }

  /** A record the builder made is rebuilt from its own payload and date. */
  lemma RebuildRecord(r: Registration)
    requires CatalogEntry(r)
    ensures CreateRegistration(PayloadOf(r), r.registrationDate) == r
  {
  }

  /** The builder applied to an accepted payload yields a record whose fields
      again form an accepted payload. */
  lemma CreatedRecordAcceptable(data: Payload, now: int)
    requires Acceptable(data)
    ensures Acceptable(PayloadOf(CreateRegistration(data, now)))
  {
  }
}
