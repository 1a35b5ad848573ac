/** The simulated search tool of the tool-use demo (`search_information`):
    a fixed table of four facts, looked up by the lower-cased query, with a
    default message that quotes the query as the caller wrote it. */
module SearchTool {
  import opened PyStr

  const WeatherFact: string := "The weather in London is currently cloudy with a temperature of 15\U{B0}C."
  const CapitalFact: string := "The capital of France is Paris."
  const PopulationFact: string := "The estimated population of Earth is around 8 billion people."
  const MountainFact: string := "Mount Everest is the tallest mountain above sea level."

  /** The four stored facts, keyed by their lower-case topic. */
  const Facts: map<string, string> := map[
    "weather in london" := WeatherFact,
    "capital of france" := CapitalFact,
    "population of earth" := PopulationFact,
    "tallest mountain" := MountainFact
  ]

  const DefaultPrefix: string := "Simulated search result for '"
  const DefaultSuffix: string := "': No specific information found, but the topic seems interesting."

  /** The `"default"` entry: the query verbatim, in its original case,
      between a fixed prefix and suffix that together are 95 characters
      long. */
  function DefaultMessage(query: string): (m: string)
    ensures |m| == |query| + 95
    ensures m[..|DefaultPrefix|] == DefaultPrefix
    ensures m[|DefaultPrefix|..|DefaultPrefix| + |query|] == query
    ensures m[|DefaultPrefix| + |query|..] == DefaultSuffix
  {
    var m := DefaultPrefix + query + DefaultSuffix;
    assert m[..|DefaultPrefix|] == DefaultPrefix;
    assert m[|DefaultPrefix|..|DefaultPrefix| + |query|] == query;
    m
  }

  /** The table the tool builds on every call: the four facts and the
      `"default"` entry. */
  function SimulatedResults(query: string): (m: map<string, string>)
    ensures m.Keys == Facts.Keys + {"default"}
    ensures m["default"] == DefaultMessage(query)
    ensures forall k :: k in Facts ==> m[k] == Facts[k]
  {
    Facts["default" := DefaultMessage(query)]
  }

  /** `search_information(query)`: `.get(query.lower(), default)`. A query
      whose lower-case form is a stored topic gets that fact; any other
      query, the `"default"` topic included, gets the default message
      quoting the query. */
  function Lookup(query: string): (r: string)
    ensures Lower(query) in Facts ==> r == Facts[Lower(query)]
    ensures Lower(query) !in Facts ==> r == DefaultMessage(query)
  {
    var results := SimulatedResults(query);
    var key := Lower(query);
    if key in results then results[key] else results["default"]
  }

  /** Lookup never fails: it returns one of the four facts or the default
      message for this query. */
  lemma LookupTotal(query: string)
    ensures Lookup(query) in Facts.Values || Lookup(query) == DefaultMessage(query)
  {
  }

  /** The stored facts never look like a default message, so the reply says
      whether the table had the topic. */
  lemma FactIsNotDefault(query: string, k: string)
    requires k in Facts
    ensures Facts[k] != DefaultMessage(query)
  {
    assert |WeatherFact| < 95 && |CapitalFact| < 95 && |PopulationFact| < 95 && |MountainFact| < 95;
  }

  /** The tool falls back to the default message exactly when the lower-cased
      query is not a stored topic. */
  lemma LookupFallsBackIff(query: string)
    ensures Lookup(query) == DefaultMessage(query) <==> Lower(query) !in Facts
  {
    if Lower(query) in Facts {
      FactIsNotDefault(query, Lower(query));
    }
  }

  /** Different queries get different default messages. */
  lemma DefaultMessageInjective(q1: string, q2: string)
    requires DefaultMessage(q1) == DefaultMessage(q2)
    ensures q1 == q2
  {
    assert q1 == DefaultMessage(q1)[|DefaultPrefix|..|DefaultPrefix| + |q1|];
  }

  /** For stored topics the lookup is case-insensitive: queries with the
      same lower-case form get the same fact. */
  lemma LookupCaseInsensitive(q1: string, q2: string)
    requires Lower(q1) == Lower(q2) && Lower(q1) in Facts
    ensures Lookup(q1) == Lookup(q2) == Facts[Lower(q1)]
  {
  }

  /** For unmatched queries it is not: two spellings of the same unknown
      topic get different messages, each quoting its own spelling. */
  lemma LookupUnmatchedKeepsCase(q1: string, q2: string)
    requires Lower(q1) !in Facts && Lower(q2) !in Facts
    ensures Lookup(q1) == Lookup(q2) <==> q1 == q2
  {
    if Lookup(q1) == Lookup(q2) {
      DefaultMessageInjective(q1, q2);
    }
  }

  /** Matching is exact after lower-casing, with no trimming and no
      substring search: a query whose length is that of no topic (16, 17 or
      19 characters) always misses the table. */
  lemma LookupLengthMismatch(query: string)
    requires !(|query| in {16, 17, 19})
    ensures Lookup(query) == DefaultMessage(query)
  {
    assert forall k :: k in Facts ==> |k| in {16, 17, 19};
  }

  /** So the demo's full question, which contains a topic, misses it. */
  lemma LookupExactMatchExample()
    ensures Lookup("What is the capital of France?") == DefaultMessage("What is the capital of France?")
  {
    LookupLengthMismatch("What is the capital of France?");
  }

  /** The `"default"` topic, in any case, is answered with the default
      message for that query, exactly as an unmatched query is. */
  lemma LookupDefaultKey(query: string)
    requires Lower(query) == "default"
    ensures Lookup(query) == DefaultMessage(query)
  {
  }

  /** The tool's docstring suggests phrases like 'capital of France': any
      spelling of it that lower-cases to the topic gets the fact. */
  lemma LookupDocstringHit(query: string)
    requires Lower(query) == "capital of france"
    ensures Lookup(query) == "The capital of France is Paris."
  {
  }

  /** Its other suggestion, 'weather in London?', is 18 characters long
      because of the question mark, so it misses the table and gets the
      default message. */
  lemma LookupDocstringMiss()
    ensures Lookup("weather in London?") == DefaultMessage("weather in London?")
  {
    LookupLengthMismatch("weather in London?");
  }

  /** An illustration: "dogs" and "Dogs" share a lower-case form, yet get
      different replies. */
  lemma LookupUnmatchedExample()
    ensures Lower("dogs") == Lower("Dogs")
    ensures Lookup("dogs") != Lookup("Dogs")
  {
    assert Lower("dogs") == "dogs";
    assert Lower("Dogs") == "dogs";
    LookupUnmatchedKeepsCase("dogs", "Dogs");
  }
}
