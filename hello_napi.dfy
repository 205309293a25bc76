/** The greeting exported to the host: an optional name, defaulted, inside
    "Hello, " and "!". */
module HelloNapi {

  datatype Option<T> = None | Some(value: T)

  /** The name used when the caller passes none. */
  const DefaultInput: string := "napi-rs"

  /** `input.unwrap_or_else(|| "napi-rs".to_string())`: only a missing input
      is replaced; an empty one is kept. */
  function UnwrapOrDefault(input: Option<string>): string {
    match input
    case Some(s) => s
    case None => DefaultInput
  }

  /** True of a text of the shape "Hello, " + name + "!". */
  predicate IsGreeting(r: string) {
    |r| >= 8 && r[..7] == "Hello, " && r[|r| - 1] == '!'
  }

  /** `format!("Hello, {}!", input)` on the defaulted input. */
  function HelloNapi(input: Option<string>): (r: string)
    ensures IsGreeting(r)
    ensures |r| == |UnwrapOrDefault(input)| + 8
    ensures r[7..|r| - 1] == UnwrapOrDefault(input)
    ensures input.None? ==> r == "Hello, napi-rs!"
  {
    "Hello, " + UnwrapOrDefault(input) + "!"
  }

  /** Reads the name back out of a greeting. */
  function GreetedName(r: string): (o: Option<string>)
    ensures o.Some? <==> IsGreeting(r)
    ensures o.Some? ==> HelloNapi(Some(o.value)) == r
  {
    if IsGreeting(r) then Some(r[7..|r| - 1]) else None
  }

  /** The name is recovered from the greeting made of it. */
  lemma GreetingRoundTrip(s: string)
    ensures GreetedName(HelloNapi(Some(s))) == Some(s)
  {
  }

  /** Every greeting is the one made of the name read out of it. */
  lemma GreetingFromName(r: string, s: string)
    requires GreetedName(r) == Some(s)
    ensures HelloNapi(Some(s)) == r
  {
  }

  /** Different names give different greetings. */
  lemma GreetingInjective(s: string, t: string)
    requires HelloNapi(Some(s)) == HelloNapi(Some(t))
    ensures s == t
  {
  }

  /** A missing input behaves exactly like the default name passed in. */
  lemma MissingInputIsDefault()
    ensures HelloNapi(None) == HelloNapi(Some(DefaultInput))
  {
  }

  /** An empty name is kept, not defaulted. */
  lemma EmptyInputKept()
    ensures HelloNapi(Some("")) == "Hello, !"
    ensures HelloNapi(Some("")) != HelloNapi(None)
  {
  }

  /** The host-side test cases: no argument, and the name "rusty". */
  lemma HostTestCases()
    ensures HelloNapi(None) == "Hello, napi-rs!"
    ensures HelloNapi(Some("rusty")) == "Hello, rusty!"
  {
  }
}
