/**
 * The pure data shaping of the Gemini HTTP client (src/gemini.rs): the
 * configuration checks of `Gemini::new`, the endpoint URL and request body
 * that `Gemini::ask` builds, and the flattening of a parsed response into
 * the list of answer texts. Sending the request, reading its body and
 * decoding the JSON are one external exchange, given as a function.
 */
module Gemini {
  import opened Wrappers

  // ---------------------------------------------------------------------
  // The wire records, as the client decodes and encodes them
  // ---------------------------------------------------------------------

  /** One piece of text inside a message. */
  datatype Part = Part(text: string)

  /** A message: its parts in order and the role that wrote it. */
  datatype Content = Content(parts: seq<Part>, role: string)

  datatype SafetyRating = SafetyRating(category: string, probability: string)

  datatype UsageMetadata = UsageMetadata(
    promptTokenCount: nat,
    candidatesTokenCount: nat,
    totalTokenCount: nat)

  /** One alternative answer of the service. */
  datatype Candidate = Candidate(
    content: Content,
    finishReason: Option<string>,
    index: nat,
    safetyRatings: seq<SafetyRating>)

  /** A decoded reply of `generateContent`. */
  datatype Response = Response(candidates: seq<Candidate>, usageMetadata: UsageMetadata)

  /** The JSON body the client posts. */
  datatype RequestBody = RequestBody(contents: seq<Content>)

  /** Why `ask` failed: transport or body reading, or JSON decoding. */
  datatype GeminiError = Network | Serialization

  // ---------------------------------------------------------------------
  // Construction
  // ---------------------------------------------------------------------

  /** A configured client: the credentials and model it was built with. */
  datatype Client = Client(apiKey: string, model: string)

  /** The option `Gemini::new` found missing (where the source panics). */
  datatype ConfigError = MissingApiKey | MissingModel

  /** `Gemini::new`: both options must be present; the key is checked first. */
  function New(apiKey: Option<string>, model: Option<string>): (r: Result<Client, ConfigError>)
    ensures r.Ok? <==> apiKey.Some? && model.Some?
    ensures apiKey.None? ==> r == Err(MissingApiKey)
    ensures apiKey.Some? && model.None? ==> r == Err(MissingModel)
    ensures r.Ok? ==> r.value.apiKey == apiKey.value && r.value.model == model.value
  {
    match apiKey
    case None => Err(MissingApiKey)
    case Some(key) =>
      match model
      case None => Err(MissingModel)
      case Some(name) => Ok(Client(key, name))
  }

  // ---------------------------------------------------------------------
  // The endpoint URL
  // ---------------------------------------------------------------------

  const UrlPrefix: string := "https://generativelanguage.googleapis.com/v1beta/models/"
  const UrlMethod: string := ":generateContent?key="

  /** The `generateContent` endpoint of the client's model, keyed by its API key. */
  function Url(c: Client): (u: string)
    ensures |u| == |UrlPrefix| + |c.model| + |UrlMethod| + |c.apiKey|
    ensures u[..|UrlPrefix|] == UrlPrefix
  {
    UrlPrefix + c.model + UrlMethod + c.apiKey
  }

  /** The position of the first `ch` in `s`, if any. */
  function IndexOf(s: string, ch: char): (r: Option<nat>)
    ensures r.Some? ==> r.value < |s| && s[r.value] == ch && ch !in s[..r.value]
    ensures r.None? ==> ch !in s
  {
    if s == [] then None
    else if s[0] == ch then Some(0)
    else
      match IndexOf(s[1..], ch)
      case None => None
      case Some(k) =>
        assert s[..k + 1] == [s[0]] + s[1..][..k];
        Some(k + 1)
  }

  /**
   * Reads the model and the key back out of an endpoint URL: the model runs
   * from the prefix to the first ':'. Every URL it accepts is the URL of
   * the client it returns.
   */
  function ParseUrl(u: string): (r: Option<Client>)
    ensures r.Some? ==> Url(r.value) == u && ':' !in r.value.model
  {
    var n := |UrlPrefix|;
    if |u| < n || u[..n] != UrlPrefix then None
    else
      match IndexOf(u[n..], ':')
      case None => None
      case Some(k) =>
        if |u| - n - k < |UrlMethod| || u[n + k..n + k + |UrlMethod|] != UrlMethod then None
        else
          Reassemble(u, UrlPrefix, k, UrlMethod);
          assert u[n..][..k] == u[n..n + k];
          Some(Client(u[n + k + |UrlMethod|..], u[n..n + k]))
  }

  /** A sequence read as a prefix, a middle piece, a marker and a tail is their concatenation. */
  lemma Reassemble<T>(u: seq<T>, p: seq<T>, k: nat, m: seq<T>)
    requires |p| + k + |m| <= |u|
    requires u[..|p|] == p && u[|p| + k..|p| + k + |m|] == m
    ensures u == p + u[|p|..|p| + k] + m + u[|p| + k + |m|..]
  {
    var a, b := |p| + k, |p| + k + |m|;
    assert u == u[..|p|] + u[|p|..a] + u[a..b] + u[b..];
  }

  /** The URL determines the client whenever the model name has no ':'. */
  lemma UrlRoundTrip(c: Client)
    ensures ':' !in c.model ==> ParseUrl(Url(c)) == Some(c)
  {
    if ':' in c.model { return; }
    var n, k, u := |UrlPrefix|, |c.model|, Url(c);
    var tail := UrlMethod + c.apiKey;
    assert u[n..] == c.model + tail;
    assert tail[0] == ':';
    IndexOfAfter(c.model, tail, ':');
    assert u[n + k..n + k + |UrlMethod|] == UrlMethod;
    assert u[n..n + k] == c.model;
    assert u[n + k + |UrlMethod|..] == c.apiKey;
  }

  /** The first `ch` of `m + t` is the head of `t` when `m` has none. */
  lemma IndexOfAfter(m: string, t: string, ch: char)
    requires ch !in m && |t| > 0 && t[0] == ch
    ensures IndexOf(m + t, ch) == Some(|m|)
  {
    var s := m + t;
    assert s[|m|] == ch;
    assert forall i :: 0 <= i < |m| ==> s[i] == m[i];
  }

  // ---------------------------------------------------------------------
  // The request
  // ---------------------------------------------------------------------

  const UserRole: string := "user"
  const JsonContentType: string := "application/json"

  /** The body of `ask`: a single user message holding the prompt as its only part. */
  function RequestFor(prompt: string): (b: RequestBody)
    ensures |b.contents| == 1 && b.contents[0].role == UserRole
    ensures |b.contents[0].parts| == 1 && b.contents[0].parts[0].text == prompt
  {
    RequestBody([Content([Part(prompt)], UserRole)])
  }

  /** The prompt of a body shaped as `RequestFor` shapes it, and nothing otherwise. */
  function PromptOf(b: RequestBody): (r: Option<string>)
    ensures r.Some? <==> exists p :: RequestFor(p) == b
    ensures r.Some? ==> RequestFor(r.value) == b
  {
    if |b.contents| == 1 && b.contents[0].role == UserRole && |b.contents[0].parts| == 1
    then
      var text := b.contents[0].parts[0].text;
      assert b.contents[0].parts == [Part(text)];
      assert b.contents == [Content([Part(text)], UserRole)];
      assert RequestFor(text) == b;
      Some(text)
    else None
  }

  /** What `ask` posts: the endpoint URL, the JSON content type, the body. */
  datatype Request = Request(url: string, contentType: string, body: RequestBody)

  function PrepareRequest(c: Client, prompt: string): (q: Request)
    ensures PromptOf(q.body) == Some(prompt)
    ensures ':' !in c.model ==> ParseUrl(q.url) == Some(c)
    ensures q.contentType == JsonContentType
  {
    UrlRoundTrip(c);
    Request(Url(c), JsonContentType, RequestFor(prompt))
  }

  // ---------------------------------------------------------------------
  // Flattening the response
  // ---------------------------------------------------------------------

  /** The texts of the parts, in order. */
  function Texts(parts: seq<Part>): (r: seq<string>)
    ensures |r| == |parts|
    ensures forall j :: 0 <= j < |parts| ==> r[j] == parts[j].text
  {
    if parts == [] then [] else [parts[0].text] + Texts(parts[1..])
  }

  /** The number of parts over all candidates. */
  function PartCount(cs: seq<Candidate>): nat
  {
    if cs == [] then 0 else |cs[0].content.parts| + PartCount(cs[1..])
  }

  /** Every candidate's part texts, candidate after candidate. */
  function Flatten(cs: seq<Candidate>): (r: seq<string>)
    ensures |r| == PartCount(cs)
  {
    if cs == [] then [] else Texts(cs[0].content.parts) + Flatten(cs[1..])
  }

  /** The answer texts of a decoded reply. */
  function Answer(resp: Response): (r: seq<string>)
    ensures |r| == PartCount(resp.candidates)
  {
    Flatten(resp.candidates)
  }

  /**
   * `Gemini::ask`: posts the request through `exchange` (send, read the
   * body, decode it) and flattens the reply; a failure of the exchange is
   * passed on unchanged.
   */
  function Ask(c: Client, prompt: string, exchange: Request -> Result<Response, GeminiError>)
    : (r: Result<seq<string>, GeminiError>)
    ensures var reply := exchange(PrepareRequest(c, prompt));
            && (reply.Err? ==> r == Err(reply.error))
            && (reply.Ok? ==> r == Ok(Answer(reply.value)))
  {
    match exchange(PrepareRequest(c, prompt))
    case Err(e) => Err(e)
    case Ok(resp) => Ok(Answer(resp))
  }

  // ---------------------------------------------------------------------
  // Properties of the flattening
  // ---------------------------------------------------------------------

  /** Flattening distributes over concatenation of candidate lists. */
  lemma {:induction false} FlattenAppend(a: seq<Candidate>, b: seq<Candidate>)
    ensures Flatten(a + b) == Flatten(a) + Flatten(b)
  {
    if a == [] {
      assert a + b == b;
    } else {
      assert (a + b)[1..] == a[1..] + b;
      FlattenAppend(a[1..], b);
    }
  }

  /**
   * Order: part `j` of candidate `i` lands after all parts of the earlier
   * candidates and after the earlier parts of its own candidate.
   */
  lemma {:induction false} FlattenAt(cs: seq<Candidate>, i: nat, j: nat)
    requires i < |cs| && j < |cs[i].content.parts|
    ensures PartCount(cs[..i]) + j < |Flatten(cs)|
    ensures Flatten(cs)[PartCount(cs[..i]) + j] == cs[i].content.parts[j].text
  {
    if i == 0 {
      assert cs[..0] == [];
    } else {
      assert cs[..i] == [cs[0]] + cs[1..][..i - 1];
      assert cs[..i][1..] == cs[1..][..i - 1];
      FlattenAt(cs[1..], i - 1, j);
    }
  }

  /** A candidate with no parts contributes nothing, wherever it stands. */
  lemma EmptyCandidateContributesNothing(a: seq<Candidate>, c: Candidate, b: seq<Candidate>)
    requires c.content.parts == []
    ensures Flatten(a + [c] + b) == Flatten(a + b)
  {
    FlattenAppend(a + [c], b);
    FlattenAppend(a, [c]);
    FlattenAppend(a, b);
    assert Flatten([c]) == Texts([]) + Flatten([]);
  }

  /**
   * Only the part texts matter: finish reasons, indices, safety ratings,
   * roles and usage metadata never change the answer.
   */
  lemma {:induction false} AnswerIgnoresMetadata(r1: Response, r2: Response)
    requires |r1.candidates| == |r2.candidates|
    requires forall i :: 0 <= i < |r1.candidates| ==>
               Texts(r1.candidates[i].content.parts) == Texts(r2.candidates[i].content.parts)
    ensures Answer(r1) == Answer(r2)
  {
    FlattenCongruent(r1.candidates, r2.candidates);
  }

  lemma {:induction false} FlattenCongruent(cs: seq<Candidate>, ds: seq<Candidate>)
    requires |cs| == |ds|
    requires forall i :: 0 <= i < |cs| ==> Texts(cs[i].content.parts) == Texts(ds[i].content.parts)
    ensures Flatten(cs) == Flatten(ds)
  {
    if cs != [] {
      FlattenCongruent(cs[1..], ds[1..]);
    }
  }

  /** A reply with no candidates is an empty answer, not an error. */
  lemma AskNoCandidates(c: Client, prompt: string, exchange: Request -> Result<Response, GeminiError>)
    requires exchange(PrepareRequest(c, prompt)).Ok?
    requires exchange(PrepareRequest(c, prompt)).value.candidates == []
    ensures Ask(c, prompt, exchange) == Ok([])
  {
  }
}
