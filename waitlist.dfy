/**
 * The `siteWaitlist` HTTPS function of firebase/functions/index.js: it sets the CORS
 * headers, dispatches on the request method, validates the submitted address with
 * `toEmail`, merge-writes a signup document into the `waitlist` collection keyed by
 * that address, and acknowledges with a JSON body.
 */
module Waitlist {
  import opened Wrappers
  import opened Email

  // ---------------------------------------------------------------------------
  // The `waitlist` collection
  // ---------------------------------------------------------------------------

  /** A field value of a stored document. */
  datatype FieldValue = Str(s: string) | Num(n: int) | Bool(b: bool) | Null

  /** A document: its fields by name. */
  type Record = map<string, FieldValue>

  /** The `source` written with every signup. */
  const SignupSource := "howdy-site"

  /** The object the handler writes for an accepted address; `now` is the clock
      reading used for both timestamps. */
  function SignupFields(email: string, now: int): Record {
    map["email" := Str(email), "updatedAt" := Num(now), "createdAt" := Num(now),
        "source" := Str(SignupSource)]
  }

  /** `doc(key).set(fields, { merge: true })` on a collection `docs`: the document
      under `key` is created if absent; the written fields replace their old values,
      every other field of the document and every other document stay as they were. */
  function MergeWrite(docs: map<string, Record>, key: string, fields: Record): (r: map<string, Record>)
    ensures r.Keys == docs.Keys + {key}
    ensures forall k :: k in docs && k != key ==> r[k] == docs[k]
    ensures r[key].Keys == fields.Keys + (if key in docs then docs[key].Keys else {})
    ensures forall f :: f in fields ==> r[key][f] == fields[f]
    ensures key in docs ==> forall f :: f in docs[key] && f !in fields ==> r[key][f] == docs[key][f]
  {
    var existing := if key in docs then docs[key] else map[];
    docs[key := existing + fields]
  }

  /** A store that may refuse a write (the service is unreachable, the write is
      rejected): a refused write leaves the collection as it was. */
  class Store {
    var docs: map<string, Record>

    constructor (initial: map<string, Record>)
      ensures docs == initial
    {
      docs := initial;
    }

    /** A merge-write that succeeds unless `fails`; `ok` reports which. */
    method Set(key: string, fields: Record, fails: bool) returns (ok: bool)
      modifies this
      ensures ok == !fails
      ensures docs == if ok then MergeWrite(old(docs), key, fields) else old(docs)
    {
      ok := !fails;
      if ok {
        docs := MergeWrite(docs, key, fields);
      }
    }
  }

  // ---------------------------------------------------------------------------
  // Requests and responses
  // ---------------------------------------------------------------------------

  /** `req.body?.email` as `String(input || '')` sees it: absent, null or another
      falsy value; a value whose string form is `s`; or a value whose conversion to
      a string throws. */
  datatype EmailField = Missing | Given(s: string) | Unconvertible

  datatype Request = Request(httpMethod: string, email: EmailField)

  datatype JsonValue = JBool(b: bool) | JStr(s: string)

  /** What a response carries: the text of `send`, or the object of `json`. */
  datatype Payload = Text(text: string) | Json(fields: map<string, JsonValue>)

  function ErrorPayload(message: string): Payload {
    Json(map["error" := JStr(message)])
  }

  function AckPayload(saved: bool): Payload {
    Json(map["ok" := JBool(true), "saved" := JBool(saved)])
  }

  /** The three cross-origin headers every request receives. */
  function CorsHeaders(): map<string, string> {
    map["Access-Control-Allow-Origin" := "*",
        "Access-Control-Allow-Methods" := "POST, OPTIONS",
        "Access-Control-Allow-Headers" := "Content-Type"]
  }

  /** An HTTP response under construction. Headers can be set only until the
      response is sent, and it is sent at most once. */
  class Response {
    var headers: map<string, string>
    var status: int
    var body: Option<Payload>

    constructor ()
      ensures headers == map[] && status == 200 && body == None
    {
      headers, status, body := map[], 200, None;
    }

    /** `res.setHeader(name, value)`. */
    method SetHeader(name: string, value: string)
      requires body.None?
      modifies this
      ensures headers == old(headers)[name := value]
      ensures status == old(status) && body == old(body)
    {
      headers := headers[name := value];
    }

    /** `res.status(code).send(text)` or `res.status(code).json(object)`. */
    method Send(code: int, payload: Payload)
      requires body.None?
      modifies this
      ensures status == code && body == Some(payload)
      ensures headers == old(headers)
    {
      status, body := code, Some(payload);
    }
  }

  // ---------------------------------------------------------------------------
  // The handler
  // ---------------------------------------------------------------------------

  /** The value `toEmail` receives for a field that converts to a string. */
  function Input(field: EmailField): Option<string>
    requires !field.Unconvertible?
  {
    if field.Given? then Some(field.s) else None
  }

  /** `siteWaitlist`. `now` stands for the clock and `writeFails` for the store's
      outcome. Every path sets the CORS headers and then sends exactly one response;
      only an accepted address with a successful write changes the store. */
  method SiteWaitlist(req: Request, res: Response, store: Store, now: int, writeFails: bool)
    requires res.body.None?
    modifies res, store
    ensures res.headers == old(res.headers) + CorsHeaders()
    ensures res.body.Some?
    ensures req.httpMethod == "OPTIONS" ==>
              res.status == 204 && res.body == Some(Text("")) && store.docs == old(store.docs)
    ensures req.httpMethod != "OPTIONS" && req.httpMethod != "POST" ==>
              res.status == 405 && res.body == Some(ErrorPayload("Method not allowed"))
              && store.docs == old(store.docs)
    ensures req.httpMethod == "POST" ==> res.status == 200 || res.status == 400
    ensures req.httpMethod == "POST" && req.email.Unconvertible? ==>
              res.status == 200 && res.body == Some(AckPayload(false)) && store.docs == old(store.docs)
    ensures req.httpMethod == "POST" && !req.email.Unconvertible? && ToEmail(Input(req.email)).None? ==>
              res.status == 400 && res.body == Some(ErrorPayload("Invalid email"))
              && store.docs == old(store.docs)
    ensures req.httpMethod == "POST" && !req.email.Unconvertible? && ToEmail(Input(req.email)).Some? ==>
              var e := ToEmail(Input(req.email)).value;
              res.status == 200 && res.body == Some(AckPayload(!writeFails))
              && store.docs == if writeFails then old(store.docs)
                               else MergeWrite(old(store.docs), e, SignupFields(e, now))
  {
    res.SetHeader("Access-Control-Allow-Origin", "*");
    res.SetHeader("Access-Control-Allow-Methods", "POST, OPTIONS");
    res.SetHeader("Access-Control-Allow-Headers", "Content-Type");
    if req.httpMethod == "OPTIONS" {
      res.Send(204, Text(""));
      return;
    }
    if req.httpMethod != "POST" {
      res.Send(405, ErrorPayload("Method not allowed"));
      return;
    }
    if req.email.Unconvertible? {
      // `String(input)` throws inside `toEmail`; the outer `catch` acknowledges.
      res.Send(200, AckPayload(false));
      return;
    }
    var email := ToEmail(Input(req.email));
    if email.None? {
      res.Send(400, ErrorPayload("Invalid email"));
      return;
    }
    var saved := store.Set(email.value, SignupFields(email.value, now), writeFails);
    res.Send(200, AckPayload(saved));
  }

  // ---------------------------------------------------------------------------
  // Properties of the stored signups
  // ---------------------------------------------------------------------------

  /** A signup leaves exactly one document under the address, holding the written
      address, source and timestamps and every other field it had before. */
  lemma SignupDocument(docs: map<string, Record>, e: string, now: int)
    ensures var r := MergeWrite(docs, e, SignupFields(e, now));
      && r.Keys == docs.Keys + {e}
      && r[e]["email"] == Str(e) && r[e]["source"] == Str(SignupSource)
      && r[e]["createdAt"] == Num(now) && r[e]["updatedAt"] == Num(now)
      && (forall f :: e in docs && f in docs[e] && f !in SignupFields(e, now) ==> r[e][f] == docs[e][f])
      && (forall k :: k in docs && k != e ==> r[k] == docs[k])
  {
  }

  /** Signing up twice with the same address is the same as signing up once, at the
      second clock reading: there is still one document, its `updatedAt` is the
      second reading, and so is its `createdAt`, which every write overwrites. */
  lemma RepeatSignup(docs: map<string, Record>, e: string, t1: int, t2: int)
    ensures var once := MergeWrite(docs, e, SignupFields(e, t1));
      var twice := MergeWrite(once, e, SignupFields(e, t2));
      && twice == MergeWrite(docs, e, SignupFields(e, t2))
      && twice.Keys == docs.Keys + {e}
      && once[e]["updatedAt"] == Num(t1) && twice[e]["updatedAt"] == Num(t2)
      && twice[e]["createdAt"] == Num(t2)
  {
    var once := MergeWrite(docs, e, SignupFields(e, t1));
    var twice := MergeWrite(once, e, SignupFields(e, t2));
    var direct := MergeWrite(docs, e, SignupFields(e, t2));
    var fields := SignupFields(e, t2);
    assert twice[e].Keys == direct[e].Keys;
    forall f | f in twice[e] ensures twice[e][f] == direct[e][f] {
      if f !in fields {
        assert once[e][f] == docs[e][f];
      }
    }
    assert twice[e] == direct[e];
    assert twice == direct;
  }

  // ---------------------------------------------------------------------------
  // A client: what a caller can conclude from the handler's contract alone
  // ---------------------------------------------------------------------------

  /** A signup, then the same signup while the store is down. */
  method SignupScenario(now: int)
  {
    var req := Request("POST", Given("  Foo@Bar.COM "));
    ToEmailMixedCaseExample();
    assert ToEmail(Input(req.email)) == Some("foo@bar.com");
    var store := new Store(map[]);
    var res := new Response();
    SiteWaitlist(req, res, store, now, false);
    assert res.status == 200 && res.body == Some(AckPayload(true));
    assert "foo@bar.com" in store.docs;

    res := new Response();
    SiteWaitlist(req, res, store, now + 1, true);
    assert res.status == 200 && res.body == Some(AckPayload(false));
    assert store.docs["foo@bar.com"]["updatedAt"] == Num(now);
  }

  /** A malformed address and a wrong method leave the store alone. */
  method RejectionScenario(docs: map<string, Record>, now: int)
  {
    var store := new Store(docs);
    var res := new Response();
    ToEmailNoAtExample();
    SiteWaitlist(Request("POST", Given("not-an-email")), res, store, now, false);
    assert res.status == 400 && store.docs == docs;

    res := new Response();
    SiteWaitlist(Request("GET", Missing), res, store, now, false);
    assert res.status == 405 && res.headers == CorsHeaders() && store.docs == docs;
  }
}
