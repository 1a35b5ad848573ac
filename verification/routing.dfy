/** The coordinator of the routing demo: a language model answers with a
    one-word decision, a branch picks one of three simulated handlers from
    that decision, and the handler formats a reply around the caller's
    original request. The model's answer is nondeterministic, so here it is
    an arbitrary input string. */
module Routing {
  import opened PyStr

  /** The three delegation targets. */
  datatype Route = Booker | Info | Unclear

  datatype Option<T> = None | Some(value: T)

  /** One guarded arm of the delegation branch: it is taken when the stripped
      decision equals `keyword` exactly (case-sensitive). */
  datatype Guard = Guard(keyword: string, route: Route)

  /** The arm's guard, applied to the decision once it has been stripped
      (each guard of the source strips the same decision, and `strip()` has
      no side effect, so stripping once is the same). */
  predicate Holds(g: Guard, stripped: string) {
    stripped == g.keyword
  }

  /** The branch construct from arm `k` on: the first arm whose guard holds
      wins, in order; when none holds, the default arm is taken. */
  function FirstMatch(guards: seq<Guard>, k: nat, fallback: Route, stripped: string): (r: Route)
    requires k <= |guards|
    ensures forall i :: k <= i < |guards| && Holds(guards[i], stripped)
              && (forall j :: k <= j < i ==> !Holds(guards[j], stripped))
              ==> r == guards[i].route
    ensures (forall i :: k <= i < |guards| ==> !Holds(guards[i], stripped)) ==> r == fallback
    decreases |guards| - k
  {
    if k == |guards| then fallback
    else if Holds(guards[k], stripped) then guards[k].route
    else FirstMatch(guards, k + 1, fallback, stripped)
  }

  /** The two guarded arms, tried in this order; `Unclear` is the default. */
  const DelegationGuards: seq<Guard> := [Guard("booker", Booker), Guard("info", Info)]

  /** Which handler the delegation branch selects for a raw decision:
      exactly "booker" after stripping selects the booking handler, exactly
      "info" the info handler, and every other decision falls through to the
      unclear handler. */
  function Decide(decision: string): (r: Route)
    ensures r == Booker <==> Strip(decision) == "booker"
    ensures r == Info <==> Strip(decision) == "info"
    ensures r == Unclear <==> Strip(decision) != "booker" && Strip(decision) != "info"
  {
    var gs := DelegationGuards;
    assert gs[0].keyword == "booker" && gs[1].keyword == "info";
    assert Holds(gs[0], Strip(decision)) <==> Strip(decision) == "booker";
    assert Holds(gs[1], Strip(decision)) <==> Strip(decision) == "info";
    FirstMatch(gs, 0, Unclear, Strip(decision))
  }

  /** Whitespace around the decision does not change the route. */
  lemma DecideIgnoresPadding(ws1: string, d: string, ws2: string)
    requires AllSpace(ws1) && AllSpace(ws2) && Trimmed(d)
    ensures Decide(ws1 + d + ws2) == Decide(d)
  {
    StripPadded(ws1, d, ws2);
    StripTrimmed(d);
  }

  /** Any trimmed decision other than the two keywords is unclear. */
  lemma DecideOtherTrimmed(d: string)
    requires Trimmed(d) && d != "booker" && d != "info"
    ensures Decide(d) == Unclear
  {
    StripTrimmed(d);
  }

  /** Malformed answers from the model raise nothing: they are delegated to
      the unclear handler, and the comparison is case-sensitive and exact. */
  lemma DecideFallbackExamples(decision: string)
    requires decision in {"unclear", "", "BOOKER", "booker.", "info booker"}
    ensures Decide(decision) == Unclear
  {
    assert Trimmed(decision);
    DecideOtherTrimmed(decision);
  }

  /** A decision padded by the model with a space and a newline still
      reaches the booking handler. */
  lemma DecidePaddedExample()
    ensures Decide(" booker\n") == Booker
  {
    assert " booker\n" == " " + "booker" + "\n";
    DecideIgnoresPadding(" ", "booker", "\n");
    StripTrimmed("booker");
  }

  const BookingPrefix: string := "Booking Handler processed request: '"
  const BookingSuffix: string := "'. Result: 'Simulated booking action.'"
  const InfoPrefix: string := "Info Handler processed request: '"
  const InfoSuffix: string := "'. Result: 'Simulated info action.'"
  const UnclearPrefix: string := "Coordinator could not delegate request: '"
  const UnclearSuffix: string := "'. Result: 'Please clarify your request.'"

  /** `p`, then `m` verbatim, then `s`: the shape of every handler reply. */
  function Framed(p: string, m: string, s: string): (out: string)
    ensures Frames(out, p, s) && Inside(out, p, s) == m
  {
    var out := p + m + s;
    assert out[..|p|] == p && out[|out| - |s|..] == s;
    assert out[|p|..|out| - |s|] == m;
    out
  }

  /** `booking_handler`: the request, formatted, between the booking reply's
      fixed text. */
  function BookingHandler(request: string): (out: string)
    ensures Frames(out, BookingPrefix, BookingSuffix) && Inside(out, BookingPrefix, BookingSuffix) == request
  {
    Framed(BookingPrefix, request, BookingSuffix)
  }

  /** `info_handler`. */
  function InfoHandler(request: string): (out: string)
    ensures Frames(out, InfoPrefix, InfoSuffix) && Inside(out, InfoPrefix, InfoSuffix) == request
  {
    Framed(InfoPrefix, request, InfoSuffix)
  }

  /** `unclear_handler`. */
  function UnclearHandler(request: string): (out: string)
    ensures Frames(out, UnclearPrefix, UnclearSuffix) && Inside(out, UnclearPrefix, UnclearSuffix) == request
  {
    Framed(UnclearPrefix, request, UnclearSuffix)
  }

  function Prefix(route: Route): string {
    match route
    case Booker => BookingPrefix
    case Info => InfoPrefix
    case Unclear => UnclearPrefix
  }

  function Suffix(route: Route): string {
    match route
    case Booker => BookingSuffix
    case Info => InfoSuffix
    case Unclear => UnclearSuffix
  }

  /** The handler table of the branch's three arms: every reply is the
      route's fixed prefix, the request verbatim, then the route's fixed
      suffix. */
  function Handle(route: Route, request: string): (out: string)
    ensures Frames(out, Prefix(route), Suffix(route)) && Inside(out, Prefix(route), Suffix(route)) == request
    ensures out == Prefix(route) + request + Suffix(route)
  {
    match route
    case Booker => BookingHandler(request)
    case Info => InfoHandler(request)
    case Unclear => UnclearHandler(request)
  }

  /** Reads a handler reply back: which handler wrote it and which request it
      was given, if it is a reply at all. */
  function ParseReply(out: string): (r: Option<(Route, string)>)
    ensures r.Some? ==> Handle(r.value.0, r.value.1) == out
  {
    if Frames(out, BookingPrefix, BookingSuffix) then Some((Booker, Inside(out, BookingPrefix, BookingSuffix)))
    else if Frames(out, InfoPrefix, InfoSuffix) then Some((Info, Inside(out, InfoPrefix, InfoSuffix)))
    else if Frames(out, UnclearPrefix, UnclearSuffix) then Some((Unclear, Inside(out, UnclearPrefix, UnclearSuffix)))
    else None
  }

  /** `out` starts with `p` and ends with `s`, without the two overlapping. */
  predicate Frames(out: string, p: string, s: string) {
    |p| + |s| <= |out| && out[..|p|] == p && out[|out| - |s|..] == s
  }

  /** What lies between the prefix `p` and the suffix `s`. */
  function Inside(out: string, p: string, s: string): (m: string)
    requires Frames(out, p, s)
    ensures p + m + s == out
  {
    var m := out[|p|..|out| - |s|];
    assert out == out[..|p|] + m + out[|out| - |s|..];
    m
  }

  /** The reply determines both the handler and the request: reading a
      reply back recovers exactly what produced it. */
  lemma {:induction false} ParseReplyRoundTrip(route: Route, request: string)
    ensures ParseReply(Handle(route, request)) == Some((route, request))
  {
    var out := Handle(route, request);
    var p := Prefix(route);
    assert out[0] == out[..|p|][0] == p[0];
    if route != Booker {
      assert !Frames(out, BookingPrefix, BookingSuffix) by {
        assert out[0] != BookingPrefix[0];
      }
    }
    if route == Unclear {
      assert !Frames(out, InfoPrefix, InfoSuffix) by {
        assert out[0] != InfoPrefix[0];
      }
    }
  }

  /** Two replies are equal only when the same handler saw the same request. */
  lemma HandleInjective(r1: Route, q1: string, r2: Route, q2: string)
    requires Handle(r1, q1) == Handle(r2, q2)
    ensures r1 == r2 && q1 == q2
  {
    ParseReplyRoundTrip(r1, q1);
    ParseReplyRoundTrip(r2, q2);
  }

  /** What `coordinator_agent.invoke` is given: a bare string, or the
      one-key dict `{"request": r}` that the demo passes. */
  datatype Input = Text(text: string) | RequestDict(request: string)

  /** What a handler's f-string makes of the value it receives: `str()` of
      it. A string is itself; the dict prints as `{`, the key's `repr()`,
      `: `, the value's `repr()`, `}`. */
  function Formatted(x: Input): (f: string)
    ensures x.Text? ==> f == x.text
    ensures x.RequestDict? ==> |f| >= |x.request| + 15
  {
    match x
    case Text(t) => t
    case RequestDict(r) => "{" + Repr("request") + ": " + Repr(r) + "}"
  }

  /** The dict's key prints as `'request'`. */
  lemma KeyRepr()
    ensures Repr("request") == "'request'"
  {
    assert PlainText("request");
    ReprPlain("request");
  }

  /** Between the dict text's 12-character opening `{'request': ` and its
      closing `}` lies `repr()` of the request: the request is quoted in
      full, escapes and all. */
  lemma FormattedDict(r: string)
    ensures var f := Formatted(RequestDict(r));
            |f| == |Repr(r)| + 13 && f[12..|f| - 1] == Repr(r)
  {
    KeyRepr();
    var f := Formatted(RequestDict(r));
    var open := "{" + Repr("request") + ": ";
    assert |open| == 12;
    assert f == open + Repr(r) + "}";
    assert f[12..|f| - 1] == Repr(r);
  }

  /** Different requests give different dict texts, so the handler's reply
      still determines the request. */
  lemma FormattedDictInjective(a: string, b: string)
    requires Formatted(RequestDict(a)) == Formatted(RequestDict(b))
    ensures a == b
  {
    FormattedDict(a);
    FormattedDict(b);
    ReprInjective(a, b);
  }

  /** A request of printable ASCII with no quote or backslash is quoted in
      the dict's text as it stands. */
  lemma FormattedPlain(r: string)
    requires PlainText(r)
    ensures Formatted(RequestDict(r)) == "{'request': '" + r + "'}"
  {
    KeyRepr();
    ReprPlain(r);
    assert Formatted(RequestDict(r)) == "{" + "'request'" + ": " + ("'" + r + "'") + "}";
    DictTextRegroup(r);
  }

  lemma DictTextRegroup(r: string)
    ensures "{" + "'request'" + ": " + ("'" + r + "'") + "}" == "{'request': '" + r + "'}"
  {
    var open := "{" + "'request'" + ": ";
    assert open + "'" == "{'request': '";
    assert open + ("'" + r + "'") + "}" == (open + "'") + r + "'}";
  }

  /** The branch's input: the model's decision next to what the
      `"request"` entry passes on. */
  datatype Invocation = Invocation(decision: string, request: Input)

  /** The branch's output: its input with the handler's reply assigned to
      `output`. */
  datatype Assigned = Assigned(decision: string, request: Input, output: string)

  /** `log_and_call` without its console line: the handler is given
      `x['request']`, never the decision, and its reply reads back as that
      route and that value as the f-string formats it. */
  function LogAndCall(route: Route, x: Invocation): (out: string)
    ensures ParseReply(out) == Some((route, Formatted(x.request)))
  {
    ParseReplyRoundTrip(route, Formatted(x.request));
    Handle(route, Formatted(x.request))
  }

  /** `delegation_branch`: select the arm, then assign its reply. */
  function DelegationBranch(x: Invocation): (y: Assigned)
    ensures y.decision == x.decision && y.request == x.request
    ensures ParseReply(y.output) == Some((Decide(x.decision), Formatted(x.request)))
  {
    Assigned(x.decision, x.request, LogAndCall(Decide(x.decision), x))
  }

  /** `coordinator_agent.invoke(x)` as written: the `"request"` entry is a
      pass-through, so the handler is given the whole invoke input, and the
      result is the selected handler's reply quoting `str(x)`. */
  function Coordinate(decision: string, x: Input): (out: string)
    ensures ParseReply(out) == Some((Decide(decision), Formatted(x)))
  {
    DelegationBranch(Invocation(decision, x)).output
  }

  /** The coordinator as its comments and the handlers' `request: str`
      annotations intend: the handler is given the request text itself. */
  function CoordinateIntended(decision: string, request: string): string {
    DelegationBranch(Invocation(decision, Text(request))).output
  }

  /** The intended coordinator's result is the selected handler's reply to
      the original request: reading it back gives the route the decision
      selects and the request unchanged. */
  lemma CoordinateReply(decision: string, request: string)
    ensures ParseReply(CoordinateIntended(decision, request)) == Some((Decide(decision), request))
    ensures CoordinateIntended(decision, request) == Handle(Decide(decision), request)
  {
    ParseReplyRoundTrip(Decide(decision), request);
  }

  /** As written, the demo's dict input reaches the handler whole: the reply
      quotes the dict's text, never the request alone, so it always differs
      from the intended reply. */
  lemma CoordinateQuotesDict(decision: string, request: string)
    ensures ParseReply(Coordinate(decision, RequestDict(request)))
         == Some((Decide(decision), Formatted(RequestDict(request))))
    ensures Coordinate(decision, RequestDict(request)) != CoordinateIntended(decision, request)
  {
    CoordinateReply(decision, request);
  }

  /** With the demo's dict input and a plain request, the handler quotes the
      text `{'request': '...'}`. */
  lemma CoordinateDictPlain(decision: string, request: string)
    requires PlainText(request)
    ensures Coordinate(decision, RequestDict(request))
         == Prefix(Decide(decision)) + ("{'request': '" + request + "'}") + Suffix(Decide(decision))
  {
    FormattedPlain(request);
  }

  /** The three requests of the demo need no escaping. */
  lemma DemoRequestsPlain()
    ensures PlainText("Book me a flight to London")
    ensures PlainText("What is the capital of France?")
    ensures PlainText("What is the meaning of life?")
  {
  }

  /** Only the route matters: two decisions that select the same handler
      give the same result, whatever their text. */
  lemma CoordinateDependsOnRouteOnly(d1: string, d2: string, x: Input)
    requires Decide(d1) == Decide(d2)
    ensures Coordinate(d1, x) == Coordinate(d2, x)
  {
  }

  /** The demo's booking scenario: `request_A` invoked as
      `{"request": request_A}`, with the decision the model is instructed to
      give for it. The reply quotes the dict's text. */
  lemma CoordinateBookingExample()
    ensures Coordinate("booker", RequestDict("Book me a flight to London"))
         == "Booking Handler processed request: '"
            + ("{'request': '" + "Book me a flight to London" + "'}")
            + "'. Result: 'Simulated booking action.'"
  {
    StripTrimmed("booker");
    assert Decide("booker") == Booker;
    DemoRequestsPlain();
    CoordinateDictPlain("booker", "Book me a flight to London");
  }

  /** The demo's information scenario (`request_B`). */
  lemma CoordinateInfoExample()
    ensures Coordinate("info", RequestDict("What is the capital of France?"))
         == "Info Handler processed request: '"
            + ("{'request': '" + "What is the capital of France?" + "'}")
            + "'. Result: 'Simulated info action.'"
  {
    StripTrimmed("info");
    assert Decide("info") == Info;
    DemoRequestsPlain();
    CoordinateDictPlain("info", "What is the capital of France?");
  }

  /** The demo's unclear scenario (`request_C`). */
  lemma CoordinateUnclearExample()
    ensures Coordinate("unclear", RequestDict("What is the meaning of life?"))
         == "Coordinator could not delegate request: '"
            + ("{'request': '" + "What is the meaning of life?" + "'}")
            + "'. Result: 'Please clarify your request.'"
  {
    StripTrimmed("unclear");
    assert Decide("unclear") == Unclear;
    DemoRequestsPlain();
    CoordinateDictPlain("unclear", "What is the meaning of life?");
  }
}
