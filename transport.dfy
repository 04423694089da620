/** The transport exchange, `request`: post the measurements up to
    `num_retries` times until the service answers 200, sleeping after every
    other answer, then check the message of the decoded body and decode its
    two tables.

    The network is abstracted: `statuses[k]` is the status code of attempt k,
    `body` is the JSON object of the 200 answer (its fields are strings), and
    `readJson` is `pd.read_json`, giving the table a JSON string encodes or
    None when it encodes none. */
module Transport {
  import opened Common

  const DefaultUrl: string := "https://cogneato.xyz/api"
  const DefaultRetries: int := 3
  const BackoffSeconds: nat := 3
  const StatusOk: int := 200
  const MessageOk: string := "Ok"

  /** The JSON object posted: `{"number_of_arms": …, "measurements": …}`. */
  datatype Envelope = Envelope(numberOfArms: int, measurements: Frame)

  /** One `requests.post` of an envelope to a URL. */
  datatype Post = Post(url: string, payload: Envelope)

  /** `_CogneatoResponse`. */
  datatype Response = Response(analysis: Frame, design: Frame, message: string)

  predicate IsOk(status: int) { status == StatusOk }

  /** `len(range(num_retries))`: how many attempts the loop allows. */
  function Budget(numRetries: int): nat {
    if numRetries <= 0 then 0 else numRetries
  }

  /** How many posts are made: up to and including the first 200, and never
      more than the budget. */
  function Attempts(numRetries: int, statuses: seq<int>): (a: nat)
    requires numRetries <= |statuses|
    ensures a <= Budget(numRetries)
    ensures numRetries >= 1 ==> a >= 1
    ensures forall j :: 0 <= j < a - 1 ==> statuses[j] != StatusOk
    ensures 0 < a < Budget(numRetries) ==> statuses[a - 1] == StatusOk
    ensures a == Budget(numRetries) || (exists j :: 0 <= j < Budget(numRetries) && statuses[j] == StatusOk)
  {
    var k := FirstWhere(statuses[..Budget(numRetries)], IsOk);
    if k < Budget(numRetries) then k + 1 else k
  }

  /** How many 3-second sleeps are taken: one after every attempt that did
      not answer 200, the last attempt included. */
  function Sleeps(numRetries: int, statuses: seq<int>): (s: nat)
    requires numRetries <= |statuses|
    ensures var a := Attempts(numRetries, statuses);
      s == if a > 0 && statuses[a - 1] == StatusOk then a - 1 else a
  {
    FirstWhere(statuses[..Budget(numRetries)], IsOk)
  }

  /** Lines 45-52: what is made of the body of a 200 answer. */
  function ReadResponse(body: map<string, string>, readJson: string -> Option<Frame>): (r: Result<Response>)
    ensures "message" !in body ==> r == Failure(InvalidResponse(body))
    ensures "message" in body && body["message"] != MessageOk ==> r == Failure(ServerMessage(body["message"]))
    ensures r.Success? <==>
      && "message" in body && body["message"] == MessageOk
      && "analysis" in body && readJson(body["analysis"]).Some?
      && "design" in body && readJson(body["design"]).Some?
    ensures r.Success? ==>
      && r.value.message == MessageOk
      && readJson(body["analysis"]) == Some(r.value.analysis)
      && readJson(body["design"]) == Some(r.value.design)
    // With the message "Ok", the analysis table is looked up and read
    // before the design table is.
    ensures "message" in body && body["message"] == MessageOk && "analysis" !in body
      ==> r == Failure(KeyLookup("analysis"))
    ensures "message" in body && body["message"] == MessageOk && "analysis" in body
      && readJson(body["analysis"]).None?
      ==> r == Failure(UnreadableTable("analysis"))
    ensures "message" in body && body["message"] == MessageOk && "analysis" in body
      && readJson(body["analysis"]).Some? && "design" !in body
      ==> r == Failure(KeyLookup("design"))
    ensures "message" in body && body["message"] == MessageOk && "analysis" in body
      && readJson(body["analysis"]).Some? && "design" in body && readJson(body["design"]).None?
      ==> r == Failure(UnreadableTable("design"))
  {
    if "message" !in body then Failure(InvalidResponse(body))
    else if body["message"] != MessageOk then Failure(ServerMessage(body["message"]))
    else if "analysis" !in body then Failure(KeyLookup("analysis"))
    else if readJson(body["analysis"]).None? then Failure(UnreadableTable("analysis"))
    else if "design" !in body then Failure(KeyLookup("design"))
    else if readJson(body["design"]).None? then Failure(UnreadableTable("design"))
    else Success(Response(readJson(body["analysis"]).value, readJson(body["design"]).value, body["message"]))
  }

  /** What `request` returns or raises. */
  function RequestOutcome(numRetries: int, statuses: seq<int>, body: map<string, string>,
                          readJson: string -> Option<Frame>): (r: Result<Response>)
    requires numRetries <= |statuses|
    ensures numRetries <= 0 ==> r == Failure(NoAttempt)
    ensures numRetries >= 1 && (forall j :: 0 <= j < numRetries ==> statuses[j] != StatusOk)
      ==> r == Failure(RequestFailed(statuses[numRetries - 1]))
    ensures (exists j :: 0 <= j < numRetries && statuses[j] == StatusOk) ==> r == ReadResponse(body, readJson)
  {
    if numRetries <= 0 then Failure(NoAttempt)
    else
      var k := FirstWhere(statuses[..numRetries], IsOk);
      if k == numRetries then Failure(RequestFailed(statuses[numRetries - 1]))
      else ReadResponse(body, readJson)
  }

  /** `request(df_measurements, number_of_arms, url, num_retries)`, the
      retry loop and its `for`/`else` written out. `posts` lists the posts
      made, in order, and `sleeps` counts the sleeps. */
  method Request(measurements: Frame, numberOfArms: int, url: Option<string>, numRetries: int,
                 statuses: seq<int>, body: map<string, string>, readJson: string -> Option<Frame>)
    returns (posts: seq<Post>, sleeps: nat, outcome: Result<Response>)
    requires numRetries <= |statuses|
    ensures |posts| == Attempts(numRetries, statuses)
    ensures forall p :: p in posts ==>
      p == Post(if url.None? then DefaultUrl else url.value, Envelope(numberOfArms, measurements))
    ensures sleeps == Sleeps(numRetries, statuses)
    ensures outcome == RequestOutcome(numRetries, statuses, body, readJson)
  {
    var target := if url.None? then DefaultUrl else url.value;
    var payload := Envelope(numberOfArms, measurements);
    posts, sleeps := [], 0;
    var last: Option<int> := None;  // `res`, unbound until the first attempt
    var answered := false;          // left by `break`
    var i := 0;
    while i < numRetries && !answered
      invariant 0 <= i <= Budget(numRetries)
      invariant |posts| == i
      invariant forall p :: p in posts ==> p == Post(target, payload)
      invariant last == if i == 0 then None else Some(statuses[i - 1])
      invariant forall j :: 0 <= j < i - 1 ==> statuses[j] != StatusOk
      invariant answered <==> i > 0 && statuses[i - 1] == StatusOk
      invariant sleeps == if answered then i - 1 else i
    {
      posts := posts + [Post(target, payload)];
      var status := statuses[i];
      last := Some(status);
      if status != StatusOk {
        sleeps := sleeps + 1;
      } else {
        answered := true;
      }
      i := i + 1;
    }
    var window := statuses[..Budget(numRetries)];
    FirstWhereUnique(window, IsOk, if answered then i - 1 else i);
    if !answered {
      if last.None? {
        outcome := Failure(NoAttempt);
      } else {
        outcome := Failure(RequestFailed(last.value));
      }
      return;
    }
    outcome := ReadResponse(body, readJson);
  }

  /** Three answers of 500 with the default budget: three posts, three
      sleeps (one after the last attempt too), and the last code reported. */
  lemma ThreeFailures(body: map<string, string>, readJson: string -> Option<Frame>)
    ensures Attempts(DefaultRetries, [500, 500, 500]) == 3
    ensures Sleeps(DefaultRetries, [500, 500, 500]) == 3
    ensures RequestOutcome(DefaultRetries, [500, 500, 500], body, readJson) == Failure(RequestFailed(500))
  {
  }

  /** A server error message is reported verbatim. */
  lemma ServerMessageVerbatim(statuses: seq<int>, readJson: string -> Option<Frame>)
    requires |statuses| >= DefaultRetries && statuses[0] == StatusOk
    ensures RequestOutcome(DefaultRetries, statuses, map["message" := "Bad input: too many arms"], readJson)
         == Failure(ServerMessage("Bad input: too many arms"))
  {
  }
}
