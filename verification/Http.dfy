/** Reading one HTTP request from a connection, a fragment at a time. */
module Http {

  datatype Config = Config(maxRequestLine: nat, maxHeaderBytes: nat, maxBodyBytes: nat) {
    /** The size of a connection's input buffer. */
    function Capacity(): nat { maxHeaderBytes + maxBodyBytes }
  }

  /** What the request parser says about a header block: an error status, or the length of the body. */
  datatype Parsed = Refused(status: int) | Accepted(expected: nat)

  /** A parser looks at the header block only, and never promises a body that cannot be buffered. */
  type Parser = seq<int> -> Parsed

  ghost predicate Bounded(parse: Parser, cfg: Config) {
    forall head :: parse(head).Accepted? ==> parse(head).expected <= cfg.maxBodyBytes
  }

  datatype Outcome = Pending | Failed(status: int) | Dispatched(head: seq<int>, body: seq<int>)

  // ---- Marks in the input -------------------------------------------------------------------------

  predicate LineBreak(s: seq<int>, i: int) { 0 <= i && i + 1 < |s| && s[i] == 13 && s[i + 1] == 10 }

  predicate BlankLine(s: seq<int>, i: int) { LineBreak(s, i) && LineBreak(s, i + 2) }

  /** The first line break at or after i, or -1. */
  function FirstBreak(s: seq<int>, i: nat): (r: int)
    ensures r == -1 || (i <= r && LineBreak(s, r))
    ensures forall j :: i <= j && (j < r || r == -1) ==> !LineBreak(s, j)
    decreases |s| - i
  {
    if i + 1 >= |s| then -1 else if LineBreak(s, i) then i else FirstBreak(s, i + 1)
  }

  /** Where the first blank line ends, or -1. */
  function HeaderEnd(s: seq<int>, i: nat): (r: int)
    ensures r == -1 || (i + 4 <= r <= |s| && BlankLine(s, r - 4))
    ensures forall j :: i <= j && (j < r - 4 || r == -1) ==> !BlankLine(s, j)
    decreases |s| - i
  {
    if i + 3 >= |s| then -1 else if BlankLine(s, i) then i + 4 else HeaderEnd(s, i + 1)
  }

  // ---- One read -----------------------------------------------------------------------------------

  /** A connection: what it has received, where the header ends, how long the body is, whether a request
      was parsed, 0 while it reads and 1 once a response was prepared, and what was decided, counting
      the requests handed over. */
  datatype Connection = Connection(received: nat, headerEnd: int, expected: nat, request: bool, state: nat,
                                   outcome: Outcome, dispatches: nat)

  const OPENED := Connection(0, -1, 0, false, 0, Pending, 0)

  /** `_Fail` prepares a response. */
  function Fail(c: Connection, status: int): Connection { c.(outcome := Failed(status), state := 1) }

  /** `_Dispatch` hands the request over and prepares a response. */
  function Dispatch(c: Connection, head: seq<int>, body: seq<int>): Connection {
    c.(outcome := Dispatched(head, body), dispatches := c.dispatches + 1, state := 1)
  }

  /** `_Parse`: a request without a body is handed over at once. */
  function ParseHeader(parse: Parser, c: Connection, head: seq<int>): Connection {
    match parse(head)
    case Refused(status) => Fail(c, status)
    case Accepted(expected) =>
      var c := c.(request := true, expected := expected);
      if expected == 0 then Dispatch(c, head, []) else c
  }

  /** The body stage of `_Read`, which runs after `_Parse` in the same read, and alone in later ones. */
  function ReadBody(c: Connection, input: seq<int>): Connection
    requires 0 <= c.headerEnd
  {
    if c.state != 0 || !c.request then c
    else if |input| - c.headerEnd >= c.expected then
      Dispatch(c, input[..c.headerEnd], input[c.headerEnd..c.headerEnd + c.expected])
    else c
  }

  /** `_Read` after bytes arrived: `input` is everything received so far. */
  function Arrive(cfg: Config, parse: Parser, c: Connection, input: seq<int>): Connection {
    var c := c.(received := |input|);
    if c.headerEnd >= 0 then ReadBody(c, input)
    else
      var line := FirstBreak(input, 0);
      if line > cfg.maxRequestLine || (line < 0 && |input| > cfg.maxRequestLine + 2) then Fail(c, 414)
      else
        var end := HeaderEnd(input, 0);
        if end < 0 then
          if |input| >= cfg.maxHeaderBytes then Fail(c, 431) else c
        else if end > cfg.maxHeaderBytes then Fail(c.(headerEnd := end), 431)
        else ReadBody(ParseHeader(parse, c.(headerEnd := end), input[..end]), input)
  }

  function Min(a: nat, b: nat): nat { if a < b then a else b }

  /** One service step of a connection whose peer sends `stream`: the socket hands over up to `amount`
      bytes, as many as fit; a full buffer is an error. */
  function Serve(cfg: Config, parse: Parser, stream: seq<int>, c: Connection, amount: nat): Connection {
    if c.state != 0 || c.received > |stream| then c
    else if c.received == cfg.Capacity() then Fail(c, 431)
    else if c.received > cfg.Capacity() then c
    else
      var n := Min(amount, Min(cfg.Capacity() - c.received, |stream| - c.received));
      if n == 0 then c else Arrive(cfg, parse, c, stream[..c.received + n])
  }

  /** Any way of cutting the stream into receives. */
  function Run(cfg: Config, parse: Parser, stream: seq<int>, amounts: seq<nat>): Connection {
    if amounts == [] then OPENED
    else Serve(cfg, parse, stream, Run(cfg, parse, stream, amounts[..|amounts| - 1]), amounts[|amounts| - 1])
  }

  // ---- The verdict on a whole prefix --------------------------------------------------------------

  /** What the received bytes amount to, however they came. */
  function Verdict(cfg: Config, parse: Parser, s: seq<int>): Outcome {
    var line, end := FirstBreak(s, 0), HeaderEnd(s, 0);
    if |s| > cfg.maxRequestLine + 2 && (line < 0 || line > cfg.maxRequestLine) then Failed(414)
    else if end < 0 then if |s| >= cfg.maxHeaderBytes then Failed(431) else Pending
    else if end > cfg.maxHeaderBytes then Failed(431)
    else
      match parse(s[..end])
      case Refused(status) => Failed(status)
      case Accepted(expected) => if |s| - end >= expected then Dispatched(s[..end], s[end..end + expected]) else Pending
  }

  /** Longer input has the same first line break, once there is one. */
  lemma BreakKept(s: seq<int>, k: nat)
    requires k <= |s|
    ensures FirstBreak(s[..k], 0) != -1 ==> FirstBreak(s, 0) == FirstBreak(s[..k], 0)
    ensures FirstBreak(s, 0) != -1 && FirstBreak(s, 0) + 2 <= k ==> FirstBreak(s[..k], 0) == FirstBreak(s, 0)
  {
    var p := s[..k];
    assert forall j :: 0 <= j < k - 1 ==> (LineBreak(p, j) <==> LineBreak(s, j));
  }

  lemma HeaderKept(s: seq<int>, k: nat)
    requires k <= |s|
    ensures HeaderEnd(s[..k], 0) != -1 ==> HeaderEnd(s, 0) == HeaderEnd(s[..k], 0)
    ensures HeaderEnd(s, 0) != -1 && HeaderEnd(s, 0) <= k ==> HeaderEnd(s[..k], 0) == HeaderEnd(s, 0)
  {
    var p := s[..k];
    assert forall j :: 0 <= j < k - 3 ==> (BlankLine(p, j) <==> BlankLine(s, j));
  }

  /** The header sizes are compatible with the request-line limit. */
  predicate Consistent(cfg: Config) {
    cfg.maxRequestLine + 2 < cfg.maxHeaderBytes || cfg.Capacity() <= cfg.maxRequestLine + 2
  }

  /** A blank line needs a line break before it. */
  lemma HeaderHasLine(s: seq<int>)
    ensures HeaderEnd(s, 0) != -1 ==> 0 <= FirstBreak(s, 0) <= HeaderEnd(s, 0) - 4
  {
  }

  /** Once the received bytes decide, more bytes decide the same. */
  lemma VerdictStable(cfg: Config, parse: Parser, s: seq<int>, k: nat)
    requires k <= |s| <= cfg.Capacity() && Consistent(cfg) && !Verdict(cfg, parse, s[..k]).Pending?
    ensures Verdict(cfg, parse, s) == Verdict(cfg, parse, s[..k])
  {
    BreakKept(s, k);
    HeaderKept(s, k);
    HeaderHasLine(s);
    HeaderHasLine(s[..k]);
    var end := HeaderEnd(s[..k], 0);
    if end != -1 {
      assert s[..k][..end] == s[..end];
      if parse(s[..end]).Accepted? && k - end >= parse(s[..end]).expected {
        var expected := parse(s[..end]).expected;
        assert s[..k][end..end + expected] == s[end..end + expected];
      }
    }
  }

  /** A connection that has decided nothing waits for a verdict that is not there yet. */
  ghost predicate Waiting(cfg: Config, parse: Parser, stream: seq<int>, c: Connection) {
    && c.received <= Min(|stream|, cfg.Capacity())
    && c.outcome == Verdict(cfg, parse, stream[..c.received])
    && c.dispatches == (if c.outcome.Dispatched? then 1 else 0)
    && c.state == (if c.outcome.Pending? then 0 else 1)
    && (c.outcome.Pending? ==>
          var end := HeaderEnd(stream[..c.received], 0);
          c.headerEnd == end && (c.request <==> end != -1)
          && (end != -1 ==> end <= cfg.maxHeaderBytes && parse(stream[..end]) == Accepted(c.expected)))
  }

  lemma OpenedWaiting(cfg: Config, parse: Parser, stream: seq<int>)
    requires cfg.maxHeaderBytes > 0
    ensures Waiting(cfg, parse, stream, OPENED)
  {
    assert stream[..0] == [];
  }

  /** A waiting connection has room in its buffer. */
  lemma WaitingRoom(cfg: Config, parse: Parser, stream: seq<int>, c: Connection)
    requires Bounded(parse, cfg) && Waiting(cfg, parse, stream, c) && c.outcome.Pending?
    ensures c.received < cfg.Capacity()
  {
    var input := stream[..c.received];
    var end := HeaderEnd(input, 0);
    if end != -1 {
      assert input[..end] == stream[..end];
      assert parse(stream[..end]).expected <= cfg.maxBodyBytes;
    }
  }

  /** The first bytes, or more of them, before the header is complete. */
  lemma ArriveHeader(cfg: Config, parse: Parser, stream: seq<int>, c: Connection, k: nat)
    requires c.headerEnd == -1 && !c.request && c.state == 0 && c.outcome.Pending? && c.dispatches == 0
    requires k <= Min(|stream|, cfg.Capacity())
    ensures Waiting(cfg, parse, stream, Arrive(cfg, parse, c, stream[..k]))
  {
    var input := stream[..k];
    var end := HeaderEnd(input, 0);
    if end != -1 { assert input[..end] == stream[..end]; }
  }

  /** More of the body. */
  lemma ArriveBody(cfg: Config, parse: Parser, stream: seq<int>, c: Connection, k: nat)
    requires Waiting(cfg, parse, stream, c) && c.outcome.Pending? && c.headerEnd != -1
    requires c.received <= k <= Min(|stream|, cfg.Capacity())
    ensures Waiting(cfg, parse, stream, Arrive(cfg, parse, c, stream[..k]))
  {
    var input, before := stream[..k], stream[..c.received];
    assert input[..c.received] == before;
    BreakKept(input, c.received);
    HeaderKept(input, c.received);
    HeaderHasLine(before);
    var end := c.headerEnd;
    assert input[..end] == stream[..end] == before[..end];
  }

  lemma ServeWaiting(cfg: Config, parse: Parser, stream: seq<int>, c: Connection, amount: nat)
    requires cfg.maxHeaderBytes > 0 && Bounded(parse, cfg) && Waiting(cfg, parse, stream, c)
    ensures Waiting(cfg, parse, stream, Serve(cfg, parse, stream, c, amount))
  {
    hide *;
    if c.outcome.Pending? {
      WaitingRoom(cfg, parse, stream, c);
      var n := ServeIs(cfg, parse, stream, c, amount);
      if n > 0 {
        if c.headerEnd == -1 { ArriveHeader(cfg, parse, stream, c, c.received + n); }
        else { ArriveBody(cfg, parse, stream, c, c.received + n); }
      }
    } else {
      WaitingDone(cfg, parse, stream, c);
      ServeDone(cfg, parse, stream, c, amount);
    }
  }

  lemma WaitingDone(cfg: Config, parse: Parser, stream: seq<int>, c: Connection)
    requires Waiting(cfg, parse, stream, c) && !c.outcome.Pending?
    ensures c.state != 0
  {
  }

  lemma ServeIs(cfg: Config, parse: Parser, stream: seq<int>, c: Connection, amount: nat) returns (n: nat)
    requires Waiting(cfg, parse, stream, c) && c.outcome.Pending? && c.received < cfg.Capacity()
    ensures c.dispatches == 0 && c.state == 0 && (c.headerEnd == -1 ==> !c.request)
    ensures c.received + n <= Min(|stream|, cfg.Capacity()) && c.headerEnd >= -1
    ensures Serve(cfg, parse, stream, c, amount) ==
              if n == 0 then c else Arrive(cfg, parse, c, stream[..c.received + n])
  {
    n := Min(amount, Min(cfg.Capacity() - c.received, |stream| - c.received));
    hide Verdict, Arrive;
  }

  lemma ServeDone(cfg: Config, parse: Parser, stream: seq<int>, c: Connection, amount: nat)
    requires c.state != 0
    ensures Serve(cfg, parse, stream, c, amount) == c
  {
  }

  lemma {:induction false} RunWaiting(cfg: Config, parse: Parser, stream: seq<int>, amounts: seq<nat>)
    requires cfg.maxHeaderBytes > 0 && Bounded(parse, cfg)
    ensures Waiting(cfg, parse, stream, Run(cfg, parse, stream, amounts))
  {
    if amounts == [] {
      OpenedWaiting(cfg, parse, stream);
    } else {
      RunWaiting(cfg, parse, stream, amounts[..|amounts| - 1]);
      ServeWaiting(cfg, parse, stream, Run(cfg, parse, stream, amounts[..|amounts| - 1]), amounts[|amounts| - 1]);
    }
  }

  /** In no run is a connection that still waits handed a full buffer: the check at the start of a read
      is dead. */
  lemma NeverFull(cfg: Config, parse: Parser, stream: seq<int>, amounts: seq<nat>)
    requires cfg.maxHeaderBytes > 0 && Bounded(parse, cfg) && Run(cfg, parse, stream, amounts).outcome.Pending?
    ensures Run(cfg, parse, stream, amounts).received < cfg.Capacity()
  {
    RunWaiting(cfg, parse, stream, amounts);
    WaitingRoom(cfg, parse, stream, Run(cfg, parse, stream, amounts));
  }

  /** What a dispatching verdict hands over is the front of the input, and a body of the length asked. */
  lemma DispatchFront(cfg: Config, parse: Parser, s: seq<int>)
    requires Verdict(cfg, parse, s).Dispatched?
    ensures var o := Verdict(cfg, parse, s); o.head + o.body <= s && parse(o.head) == Accepted(|o.body|)
  {
    var end := HeaderEnd(s, 0);
    var expected := parse(s[..end]).expected;
    hide HeaderEnd, FirstBreak;
    assert s[..end] + s[end..end + expected] == s[..end + expected];
  }

  /** At most one request is dispatched on a connection, although two places dispatch, and its body is what
      followed its header. */
  lemma OneDispatch(cfg: Config, parse: Parser, stream: seq<int>, amounts: seq<nat>)
    requires cfg.maxHeaderBytes > 0 && Bounded(parse, cfg)
    ensures var c := Run(cfg, parse, stream, amounts);
            && c.dispatches <= 1 && (c.dispatches == 1 <==> c.outcome.Dispatched?)
            && c.state == (if c.outcome.Pending? then 0 else 1)
            && (c.outcome.Dispatched? ==>
                 c.outcome.head + c.outcome.body <= stream && parse(c.outcome.head) == Accepted(|c.outcome.body|))
  {
    var c := Run(cfg, parse, stream, amounts);
    RunWaiting(cfg, parse, stream, amounts);
    hide Run, Verdict, HeaderEnd, FirstBreak, Bounded;
    if c.outcome.Dispatched? { DispatchFront(cfg, parse, stream[..c.received]); }
  }

  /** Every way of cutting the stream into receives that decides at all decides the same, and does so
      on the bytes a connection can hold. */
  lemma SameOutcome(cfg: Config, parse: Parser, stream: seq<int>, a: seq<nat>, b: seq<nat>)
    requires cfg.maxHeaderBytes > 0 && Bounded(parse, cfg) && Consistent(cfg)
    requires !Run(cfg, parse, stream, a).outcome.Pending? && !Run(cfg, parse, stream, b).outcome.Pending?
    ensures Run(cfg, parse, stream, a).outcome == Run(cfg, parse, stream, b).outcome
  {
    RunWaiting(cfg, parse, stream, a);
    RunWaiting(cfg, parse, stream, b);
    var k := Min(|stream|, cfg.Capacity());
    var all := stream[..k];
    var i, j := Run(cfg, parse, stream, a).received, Run(cfg, parse, stream, b).received;
    assert all[..i] == stream[..i] && all[..j] == stream[..j];
    VerdictStable(cfg, parse, all, i);
    VerdictStable(cfg, parse, all, j);
  }

  // ---- When it is not so --------------------------------------------------------------------------

  ghost predicate Independent(cfg: Config) {
    forall parse: Parser, stream, a, b {:trigger Run(cfg, parse, stream, a), Run(cfg, parse, stream, b)} ::
      Bounded(parse, cfg) && !Run(cfg, parse, stream, a).outcome.Pending?
      && !Run(cfg, parse, stream, b).outcome.Pending? ==>
        Run(cfg, parse, stream, a).outcome == Run(cfg, parse, stream, b).outcome
  }

  lemma RunOnce(cfg: Config, parse: Parser, stream: seq<int>, n: nat)
    requires 0 < n <= |stream| && n <= cfg.Capacity()
    ensures Run(cfg, parse, stream, [n]) == Arrive(cfg, parse, OPENED, stream[..n])
  {
    assert [n][..0] == [];
    assert Run(cfg, parse, stream, []) == OPENED;
  }

  lemma NoBreaks(s: seq<int>)
    requires forall i :: 0 <= i < |s| ==> s[i] == 97
    ensures FirstBreak(s, 0) == -1 && HeaderEnd(s, 0) == -1
  {
  }

  /** Otherwise a long request line gets 414 or 431 depending on how it arrives. */
  lemma Dependent(cfg: Config)
    requires cfg.maxHeaderBytes > 0 && !Consistent(cfg)
    ensures !Independent(cfg)
  {
    var parse: Parser := _ => Refused(400);
    var n := cfg.maxRequestLine + 3;
    var stream := seq(n, _ => 97);
    RunOnce(cfg, parse, stream, n);
    RunOnce(cfg, parse, stream, cfg.maxHeaderBytes);
    NoBreaks(stream[..n]);
    NoBreaks(stream[..cfg.maxHeaderBytes]);
    assert Run(cfg, parse, stream, [n]).outcome == Failed(414);
    assert Run(cfg, parse, stream, [cfg.maxHeaderBytes]).outcome == Failed(431);
    assert Bounded(parse, cfg);
  }

  /** How the stream is fragmented never matters if and only if the limits are consistent. */
  lemma FragmentationIff(cfg: Config)
    requires cfg.maxHeaderBytes > 0
    ensures Independent(cfg) <==> Consistent(cfg)
  {
    if Consistent(cfg) {
      forall parse: Parser, stream, a, b {:trigger Run(cfg, parse, stream, a), Run(cfg, parse, stream, b)}
        | Bounded(parse, cfg) && !Run(cfg, parse, stream, a).outcome.Pending?
          && !Run(cfg, parse, stream, b).outcome.Pending?
        ensures Run(cfg, parse, stream, a).outcome == Run(cfg, parse, stream, b).outcome
      {
        SameOutcome(cfg, parse, stream, a, b);
      }
    } else {
      Dependent(cfg);
    }
  }

  // ---- The connection object ----------------------------------------------------------------------

  /** `THTTPConnection`, as far as reading a request goes. */
  class Reader {
    const cfg: Config
    const parse: Parser
    const input: array<int>
    var inputCount: nat
    var headerEnd: int
    var expectedBody: nat
    var request: bool
    var state: nat
    var outcome: Outcome
    var dispatches: nat

    ghost predicate Valid()
      reads this, input
    {
      && input.Length == cfg.Capacity() && inputCount <= input.Length
      && -1 <= headerEnd <= inputCount
    }

    ghost function View(): Connection
      reads this
    {
      Connection(inputCount, headerEnd, expectedBody, request, state, outcome, dispatches)
    }

    constructor (cfg: Config, parse: Parser)
      ensures Valid() && View() == OPENED && this.cfg == cfg && this.parse == parse && fresh(input)
    {
      this.cfg, this.parse := cfg, parse;
      input := new int[cfg.Capacity()](_ => 0);
      inputCount, headerEnd, expectedBody, request, state, outcome, dispatches := 0, -1, 0, false, 0, Pending, 0;
    }

    /** The first line break in the buffer. */
    method FindBreak() returns (at: int)
      requires Valid()
      ensures at == FirstBreak(input[..inputCount], 0)
    {
      var i := 1;
      ghost var s := input[..inputCount];
      while i < inputCount
        invariant i >= 1 && FirstBreak(s, 0) == FirstBreak(s, i - 1)
      {
        if input[i - 1] == 13 && input[i] == 10 { return i - 1; }
        i := i + 1;
      }
      return -1;
    }

    /** The end of the first blank line in the buffer. */
    method FindHeaderEnd() returns (at: int)
      requires Valid()
      ensures at == HeaderEnd(input[..inputCount], 0)
    {
      var i := 3;
      ghost var s := input[..inputCount];
      while i < inputCount
        invariant i >= 3 && HeaderEnd(s, 0) == HeaderEnd(s, i - 3)
      {
        if input[i - 3] == 13 && input[i - 2] == 10 && input[i - 1] == 13 && input[i] == 10 { return i + 1; }
        i := i + 1;
      }
      return -1;
    }

    method FailWith(status: int)
      requires Valid()
      modifies this`outcome, this`state
      ensures Valid() && View() == Fail(old(View()), status)
    {
      outcome, state := Failed(status), 1;
    }

    method DispatchWith(head: seq<int>, body: seq<int>)
      requires Valid()
      modifies this`outcome, this`dispatches, this`state
      ensures Valid() && View() == Dispatch(old(View()), head, body)
    {
      outcome, dispatches, state := Dispatched(head, body), dispatches + 1, 1;
    }

    /** `_Parse`. */
    method ParseHead()
      requires Valid() && headerEnd >= 0
      modifies this`expectedBody, this`request, this`outcome, this`dispatches, this`state
      ensures Valid() && View() == ParseHeader(parse, old(View()), input[..headerEnd])
    {
      var parsed := parse(input[..headerEnd]);
      if parsed.Refused? {
        FailWith(parsed.status);
        return;
      }
      expectedBody, request := parsed.expected, true;
      if expectedBody == 0 { DispatchWith(input[..headerEnd], []); }
    }

    /** Copy the body out and hand the request over. */
    method Deliver()
      requires Valid() && headerEnd >= 0
      modifies this`outcome, this`dispatches, this`state
      ensures Valid() && View() == ReadBody(old(View()), input[..inputCount])
    {
      if state != 0 || !request { return; }
      if inputCount - headerEnd >= expectedBody {
        var body := new int[expectedBody](_ => 0);
        var i := 0;
        while i < expectedBody
          invariant 0 <= i <= expectedBody && body[..i] == input[headerEnd..headerEnd + i]
          invariant unchanged(this)
          modifies body
        {
          body[i] := input[headerEnd + i];
          i := i + 1;
        }
        ghost var all := input[..inputCount];
        assert body[..i] == body[..];
        assert all[headerEnd..headerEnd + expectedBody] == body[..];
        assert all[..headerEnd] == input[..headerEnd];
        DispatchWith(input[..headerEnd], body[..]);
      }
    }

    /** `_Read` with the bytes that the socket delivered. */
    method Read(chunk: seq<int>)
      requires Valid() && state == 0 && inputCount + |chunk| <= input.Length
      modifies this`inputCount, this`headerEnd, this`expectedBody, this`request, this`outcome, this`dispatches,
               this`state, input
      ensures Valid()
      ensures input[..inputCount] == old(input[..inputCount]) + chunk || old(inputCount) == input.Length
      ensures View() == if old(inputCount) == input.Length then Fail(old(View()), 431)
                        else if chunk == [] then old(View())
                        else Arrive(cfg, parse, old(View()), old(input[..inputCount]) + chunk)
    {
      if inputCount == input.Length {
        FailWith(431);
        return;
      }
      if |chunk| == 0 {
        assert input[..inputCount] + chunk == input[..inputCount];
        return;
      }
      Store(chunk);
      ghost var all := input[..inputCount];
      if headerEnd < 0 {
        var line := FindBreak();
        if line > cfg.maxRequestLine || (line < 0 && inputCount > cfg.maxRequestLine + 2) {
          FailWith(414);
          return;
        }
        var end := FindHeaderEnd();
        if end < 0 {
          if inputCount >= cfg.maxHeaderBytes { FailWith(431); }
          return;
        }
        headerEnd := end;
        if end > cfg.maxHeaderBytes {
          FailWith(431);
          return;
        }
        assert all[..end] == input[..end];
        ParseHead();
      }
      Deliver();
    }

    /** The bytes land behind those received before. */
    method Store(chunk: seq<int>)
      requires Valid() && inputCount + |chunk| <= input.Length
      modifies this`inputCount, input
      ensures Valid() && inputCount == old(inputCount) + |chunk|
      ensures input[..inputCount] == old(input[..inputCount]) + chunk
    {
      ghost var before := input[..inputCount];
      var i := 0;
      while i < |chunk|
        invariant 0 <= i <= |chunk| && inputCount == old(inputCount)
        invariant input[..inputCount + i] == before + chunk[..i]
      {
        input[inputCount + i] := chunk[i];
        i := i + 1;
      }
      assert chunk[..i] == chunk;
      inputCount := inputCount + |chunk|;
    }
  }
}
