/** The adapter between the agent's free-text tool input and a lookup
    function (`handle_input` and `build_tool` in app.py). JSON parsing and
    serialisation are parameters: the model fixes what is done with the parse
    result, not how text becomes JSON. */
module Dispatch {
  import opened Wrappers
  import opened Seqs
  import opened Text

  /** A value as `json.loads` returns it. Numbers are kept as their literal. */
  datatype Json =
    | JNull
    | JBool(b: bool)
    | JNumber(literal: string)
    | JString(s: string)
    | JArray(items: seq<Json>)
    | JObject(fields: map<string, Json>)

  /** How a Python callable is invoked: `func(**kwargs)` or `func(*args)`. */
  datatype Args = Keywords(named: map<string, Json>) | Positional(items: seq<Json>)

  /** What one call of `handle_input` did: every invocation of the target, in
      order, and the serialised result it returned or the error it raised. */
  datatype Dispatched<+E> = Dispatched(calls: seq<Args>, result: Result<string, E>)

  // ---------------------------------------------------------------- comma split

  /** Number of occurrences of `c` in `s`. */
  function Occurrences(s: string, c: char): nat
  {
    if s == [] then 0
    else (if s[0] == c then 1 else 0) + Occurrences(s[1..], c)
  }

  /** `sep.join(parts)`. */
  function Join(parts: seq<string>, sep: char): string
  {
    if parts == [] then ""
    else if |parts| == 1 then parts[0]
    else parts[0] + [sep] + Join(parts[1..], sep)
  }

  /** Python's `s.split(sep)` for a one-character separator: the pieces between
      separators, empty ones included. */
  function Split(s: string, sep: char): (r: seq<string>)
    ensures |r| == Occurrences(s, sep) + 1
    ensures forall k :: 0 <= k < |r| ==> sep !in r[k]
    ensures Join(r, sep) == s
    decreases |s|
  {
    if s == [] then [""]
    else
      var rest := Split(s[1..], sep);
      if s[0] == sep then
        assert s == [sep] + s[1..];
        [""] + rest
      else
        var r := [[s[0]] + rest[0]] + rest[1..];
        assert r[1..] == rest[1..];
        assert s == [s[0]] + s[1..];
        r
  }

  /** Splitting undoes joining pieces that do not contain the separator. */
  lemma {:induction false} SplitJoin(parts: seq<string>, sep: char)
    requires parts != []
    requires forall k :: 0 <= k < |parts| ==> sep !in parts[k]
    ensures Split(Join(parts, sep), sep) == parts
    decreases |parts|, |parts[0]|
  {
    var p := parts[0];
    if |parts| == 1 {
      SplitNoSep(p, sep);
    } else if p == [] {
      var tail := Join(parts[1..], sep);
      assert Join(parts, sep) == [sep] + tail;
      SplitJoin(parts[1..], sep);
      SplitAfterSep(tail, sep);
      assert parts == [""] + parts[1..];
    } else {
      var shorter := [p[1..]] + parts[1..];
      assert p[0] != sep by { assert p[0] in p; }
      assert sep !in shorter[0] by {
        forall c | c in shorter[0] ensures c != sep { assert c in p; }
      }
      assert shorter[1..] == parts[1..];
      assert forall k :: 1 <= k < |shorter| ==> shorter[k] == parts[k];
      SplitJoin(shorter, sep);
      JoinAfterChar(p[0], shorter, sep);
      assert [p[0]] + shorter[0] == p;
      assert [[p[0]] + shorter[0]] + shorter[1..] == parts;
      SplitAfterChar(p[0], Join(shorter, sep), sep);
    }
  }

  /** A leading separator closes an empty first piece. */
  lemma SplitAfterSep(s: string, sep: char)
    ensures Split([sep] + s, sep) == [""] + Split(s, sep)
  {
    assert ([sep] + s)[1..] == s;
  }

  /** A leading character that is not the separator joins the first piece. */
  lemma SplitAfterChar(c: char, s: string, sep: char)
    requires c != sep
    ensures Split([c] + s, sep) == [[c] + Split(s, sep)[0]] + Split(s, sep)[1..]
  {
    assert ([c] + s)[1..] == s;
  }

  /** Joining with a character put in front of the first piece puts it in
      front of the joined text. */
  lemma JoinAfterChar(c: char, parts: seq<string>, sep: char)
    requires parts != []
    ensures Join([[c] + parts[0]] + parts[1..], sep) == [c] + Join(parts, sep)
  {
    var q := [[c] + parts[0]] + parts[1..];
    assert q[1..] == parts[1..];
  }

  lemma {:induction false} SplitNoSep(s: string, sep: char)
    requires sep !in s
    ensures Split(s, sep) == [s]
    decreases |s|
  {
    if s != [] {
      assert sep !in s[1..] by {
        forall c | c in s[1..] ensures c != sep { assert c in s; }
      }
      SplitNoSep(s[1..], sep);
      assert [s[0]] + s[1..] == s;
    }
  }

  /** The fallback argument list: `[arg.strip() for arg in x.split(",")]`. */
  function FallbackArgs(x: string): (r: seq<string>)
    ensures |r| == Occurrences(x, ',') + 1
    ensures forall k :: 0 <= k < |r| ==> r[k] == Trim(Split(x, ',')[k])
    ensures forall k :: 0 <= k < |r| ==>
              && ',' !in r[k] && Unpadded(r[k])
  {
    var pieces := Split(x, ',');
    var r := Map(pieces, Trim);
    forall k | 0 <= k < |r|
      ensures ',' !in r[k]
    {
      if ',' in r[k] {
        TrimChars(pieces[k], ',');
      }
    }
    r
  }

  /** The fallback invocation: the trimmed pieces, as strings, positionally. */
  function FallbackCall(x: string): (a: Args)
    ensures a.Positional? && |a.items| == Occurrences(x, ',') + 1
    ensures forall k :: 0 <= k < |a.items| ==> a.items[k] == JString(FallbackArgs(x)[k])
  {
    Positional(Map(FallbackArgs(x), s => JString(s)))
  }

  // ---------------------------------------------------------------- dispatch

  /** The structured invocation a parse result calls for, if any: an object
      binds by keyword, an array positionally; any other value, or a failed
      parse, calls for none. */
  function StructuredCall(parsed: Option<Json>): (a: Option<Args>)
    ensures a.Some? <==> parsed.Some? && (parsed.value.JObject? || parsed.value.JArray?)
    ensures a.Some? && parsed.value.JObject? ==> a.value == Keywords(parsed.value.fields)
    ensures a.Some? && parsed.value.JArray? ==> a.value == Positional(parsed.value.items)
  {
    match parsed
    case Some(JObject(m)) => Some(Keywords(m))
    case Some(JArray(a)) => Some(Positional(a))
    case _ => None
  }

  /** The fallback tier: its error is not caught. */
  function CallFallback<Out, E>(x: string, target: Args -> Result<Out, E>, dump: Out -> string): Result<string, E>
  {
    match target(FallbackCall(x))
    case Success(v) => Success(dump(v))
    case Failure(e) => Failure(e)
  }

  /** `handle_input(x, func)`: try the JSON reading of `x`; if it gives an
      object or an array and the call on it returns, that is the answer;
      otherwise (no JSON, a scalar, or the call raised) call again with the
      comma-split, stripped pieces of the raw text. */
  function HandleInput<Out, E>(x: string, parse: string -> Option<Json>,
                               target: Args -> Result<Out, E>, dump: Out -> string): (d: Dispatched<E>)
    ensures 1 <= |d.calls| <= 2
    // the first invocation is the structured one when the payload is an object or an array
    ensures parse(x).Some? && parse(x).value.JObject? ==> d.calls[0] == Keywords(parse(x).value.fields)
    ensures parse(x).Some? && parse(x).value.JArray? ==> d.calls[0] == Positional(parse(x).value.items)
    // a structured call that returns ends the dispatch with its serialised value
    ensures StructuredCall(parse(x)).Some? && target(StructuredCall(parse(x)).value).Success? ==>
              d == Dispatched([StructuredCall(parse(x)).value],
                              Success(dump(target(StructuredCall(parse(x)).value).value)))
    // otherwise the raw text is split, and that call is the last one
    ensures StructuredCall(parse(x)).None? ==> d.calls == [FallbackCall(x)]
    ensures StructuredCall(parse(x)).Some? && target(StructuredCall(parse(x)).value).Failure? ==>
              d.calls == [StructuredCall(parse(x)).value, FallbackCall(x)]
    // every call but the last raised, and the result is the last call's, serialised
    ensures forall k :: 0 <= k < |d.calls| - 1 ==> target(d.calls[k]).Failure?
    ensures target(d.calls[|d.calls| - 1]).Success? <==> d.result.Success?
    ensures d.result.Success? ==> d.result.value == dump(target(d.calls[|d.calls| - 1]).value)
    // an error escapes only from the fallback call
    ensures d.result.Failure? ==>
              d.calls[|d.calls| - 1] == FallbackCall(x)
              && d.result.error == target(FallbackCall(x)).error
  {
    match StructuredCall(parse(x))
    case Some(args) =>
      (match target(args)
       case Success(v) => Dispatched([args], Success(dump(v)))
       case Failure(_) => Dispatched([args, FallbackCall(x)], CallFallback(x, target, dump)))
    case None => Dispatched([FallbackCall(x)], CallFallback(x, target, dump))
  }

  // ---------------------------------------------------------------- tools

  /** A lookup function: how it answers an invocation, and its docstring. */
  datatype Target<Out, +E> = Target(call: Args -> Result<Out, E>, doc: Option<string>)

  /** A registered tool: its name, what it does with the agent's text, and the
      description the agent chooses by. */
  datatype Tool<+E> = Tool(name: string, run: string -> Dispatched<E>, description: Option<string>)

  /** `build_tool(name, func)`. */
  function BuildTool<Out, E>(name: string, f: Target<Out, E>,
                             parse: string -> Option<Json>, dump: Out -> string): (t: Tool<E>)
    ensures t.name == name
    ensures t.description == f.doc
    ensures forall x :: t.run(x) == HandleInput(x, parse, f.call, dump)
  {
    Tool(name, x => HandleInput(x, parse, f.call, dump), f.doc)
  }
}

module DispatchCalls {
  import opened Wrappers
  import opened Seqs
  import opened Text
  import opened Dispatch

  /** Why a Python call fails: the arguments do not bind to the parameters
      (a `TypeError` raised before the body runs), or the body raised. */
  datatype CallError<+E> = BadArguments | Raised(error: E)

  predicate Distinct(params: seq<string>)
  {
    forall i, j :: 0 <= i < j < |params| ==> params[i] != params[j]
  }

  /** Python's binding of a call's arguments to the parameters `params`, all
      positional-or-keyword and without defaults (the shape of every lookup
      function): positional values must be exactly as many as the parameters;
      keywords must name every parameter and nothing else. */
  function Bind(params: seq<string>, args: Args): (r: Option<seq<Json>>)
    requires Distinct(params)
    ensures args.Positional? ==> (r.Some? <==> |args.items| == |params|)
    ensures args.Keywords? ==> (r.Some? <==> args.named.Keys == set k | 0 <= k < |params| :: params[k])
    ensures r.Some? ==> |r.value| == |params|
    ensures r.Some? && args.Positional? ==> r.value == args.items
    ensures r.Some? && args.Keywords? ==> forall k :: 0 <= k < |params| ==> r.value[k] == args.named[params[k]]
  {
    match args
    case Positional(items) =>
      if |items| == |params| then Some(items) else None
    case Keywords(named) =>
      if named.Keys == set k | 0 <= k < |params| :: params[k]
      then Some(seq(|params|, k requires 0 <= k < |params| => named[params[k]]))
      else None
  }

  /** Calling `func(*args)` or `func(**kwargs)` on a function with parameters
      `params` and body `body`. */
  function Invoke<Out, E>(params: seq<string>, body: seq<Json> -> Result<Out, E>, args: Args): (r: Result<Out, CallError<E>>)
    requires Distinct(params)
    ensures Bind(params, args).None? <==> r == Failure(BadArguments)
    // arguments that bind run the body on the bound values: its value is
    // returned and its exception propagates
    ensures Bind(params, args).Some? && body(Bind(params, args).value).Success? ==>
              r == Success(body(Bind(params, args).value).value)
    ensures Bind(params, args).Some? && body(Bind(params, args).value).Failure? ==>
              r == Failure(Raised(body(Bind(params, args).value).error))
  {
    match Bind(params, args)
    case None => Failure(BadArguments)
    case Some(values) =>
      match body(values)
      case Success(v) => Success(v)
      case Failure(e) => Failure(Raised(e))
  }

  /** The JSON object that names each parameter with the value at its position. */
  function NamedBy(params: seq<string>, values: seq<Json>): (m: map<string, Json>)
    requires Distinct(params) && |values| == |params|
    ensures m.Keys == set k | 0 <= k < |params| :: params[k]
    ensures forall k :: 0 <= k < |params| ==> m[params[k]] == values[k]
  {
    var m := map k | 0 <= k < |params| :: params[k] := values[k];
    assert forall k :: 0 <= k < |params| ==> params[k] in m && m[params[k]] == values[k];
    m
  }

  /** An object naming every parameter once binds exactly as the array of the
      same values in parameter order. */
  lemma KeywordsAsPositional(params: seq<string>, values: seq<Json>)
    requires Distinct(params) && |values| == |params|
    ensures Bind(params, Keywords(NamedBy(params, values))) == Bind(params, Positional(values))
  {
    var r := Bind(params, Keywords(NamedBy(params, values)));
    assert r.value == values;
  }

  /** The comma fallback binds to a function exactly when the text has one
      comma fewer than the function has parameters. */
  lemma FallbackBinds(params: seq<string>, x: string)
    requires Distinct(params)
    ensures Bind(params, FallbackCall(x)).Some? <==> Occurrences(x, ',') + 1 == |params|
  {
  }

  /** A JSON object whose keys are not exactly the parameters makes the first
      call raise, so the dispatch runs the comma fallback on the raw text. */
  lemma MismatchedKeysFallBack<Out, E>(params: seq<string>, body: seq<Json> -> Result<Out, E>,
                                      x: string, parse: string -> Option<Json>, dump: Out -> string)
    requires Distinct(params)
    requires parse(x).Some? && parse(x).value.JObject?
    requires parse(x).value.fields.Keys != set k | 0 <= k < |params| :: params[k]
    ensures HandleInput(x, parse, a => Invoke(params, body, a), dump).calls
            == [Keywords(parse(x).value.fields), FallbackCall(x)]
  {
  }

  /** When the structured call binds but the body raises, and the fallback
      binds too, the body runs twice: once on the JSON values, once on the
      comma-split strings. */
  lemma BodyRunsTwice<Out, E>(params: seq<string>, body: seq<Json> -> Result<Out, E>,
                             x: string, parse: string -> Option<Json>, dump: Out -> string)
    requires Distinct(params)
    requires StructuredCall(parse(x)).Some?
    requires Bind(params, StructuredCall(parse(x)).value).Some?
    requires body(Bind(params, StructuredCall(parse(x)).value).value).Failure?
    requires Occurrences(x, ',') + 1 == |params|
    ensures var d := HandleInput(x, parse, a => Invoke(params, body, a), dump);
            && |d.calls| == 2
            && Bind(params, d.calls[0]).Some? && Bind(params, d.calls[1]).Some?
            && Bind(params, d.calls[1]).value == FallbackCall(x).items
  {
    FallbackBinds(params, x);
  }
}

/** Worked examples of the comma fallback and the scalar case. */
module DispatchExamples {
  import opened Wrappers
  import opened Text
  import opened Dispatch

  /** A two-parameter payload written as plain text is split at the comma and
      stripped. */
  lemma PlainTextExample(x: string)
    requires x == "Alice Wonderland, 2025-05-10"
    ensures FallbackArgs(x) == ["Alice Wonderland", "2025-05-10"]
  {
    var a, b := "Alice Wonderland", "2025-05-10";
    assert x == a + ", " + b;
    TwoFieldFallback(a, b);
  }

  /** Two comma-free values without surrounding whitespace, written as
      `a, b`, come back as exactly those two arguments. */
  lemma TwoFieldFallback(a: string, b: string)
    requires ',' !in a && ',' !in b && Unpadded(a) && Unpadded(b)
    ensures FallbackArgs(a + ", " + b) == [a, b]
  {
    var x, sb := a + ", " + b, [' '] + b;
    assert Join([sb], ',') == sb;
    assert Join([a, sb], ',') == x;
    SplitJoin([a, sb], ',');
    TrimNoop(a);
    TrimSpaceThen(b);
    FallbackOf(x, [a, b]);
  }

  /** The fallback is fixed by what stripping does to each comma piece. */
  lemma FallbackOf(x: string, trimmed: seq<string>)
    requires |trimmed| == |Split(x, ',')|
    requires forall k :: 0 <= k < |trimmed| ==> Trim(Split(x, ',')[k]) == trimmed[k]
    ensures FallbackArgs(x) == trimmed
  {
  }

  /** Stripping a string that is one space followed by a stripped string. */
  lemma TrimSpaceThen(s: string)
    requires Unpadded(s)
    ensures Trim([' '] + s) == s
  {
    var t := [' '] + s;
    assert t[1..] == s;
    assert IsSpace(t[0]) && SkipFrom(t, IsSpace, 1) == 1;
    assert StripStart(t, IsSpace) == 1;
    assert StripEnd(t, IsSpace) == |t|;
  }

  /** Empty pieces are kept as empty strings. */
  lemma EmptyPiecesExample(x: string)
    requires x == "a, ,b"
    ensures FallbackArgs(x) == ["a", "", "b"]
  {
    EmptyPiecesSplit(x);
    TrimNoop("a");
    TrimSpace(" ");
    TrimNoop("b");
    FallbackOf(x, ["a", "", "b"]);
  }

  lemma EmptyPiecesSplit(x: string)
    requires x == "a, ,b"
    ensures Split(x, ',') == ["a", " ", "b"]
  {
    var a, s, b := "a", " ", "b";
    var parts := [a, s, b];
    assert ',' !in a && ',' !in s && ',' !in b;
    assert Join(parts[2..], ',') == b;
    assert parts[1..][1..] == parts[2..];
    assert Join(parts[1..], ',') == s + [','] + b;
    assert Join(parts, ',') == a + [','] + (s + [','] + b);
    assert a + [','] + (s + [','] + b) == x;
    SplitJoin(parts, ',');
  }

  lemma TrimSpace(s: string)
    requires s == " "
    ensures Trim(s) == ""
  {
    TrimSpaceThen(s[1..]);
    assert [' '] + s[1..] == s;
  }

  /** The empty payload is one empty argument. */
  lemma EmptyPayloadExample()
    ensures FallbackArgs("") == [""]
  {
    SplitNoSep("", ',');
    TrimNoop("");
  }

  /** A JSON string is a scalar: the fallback splits the raw text, so the
      quotes reach the function. */
  lemma ScalarExample<Out, E>(x: string, parse: string -> Option<Json>, target: Args -> Result<Out, E>, dump: Out -> string)
    requires x == "\"Alice\"" && parse(x) == Some(JString("Alice"))
    ensures HandleInput(x, parse, target, dump).calls == [Positional([JString(x)])]
  {
    ScalarFallback(x);
    assert StructuredCall(parse(x)).None?;
    assert FallbackCall(x).items == [JString(x)];
  }

  lemma ScalarFallback(x: string)
    requires x == "\"Alice\""
    ensures FallbackArgs(x) == [x]
  {
    SplitNoSep(x, ',');
    TrimNoop(x);
    FallbackOf(x, [x]);
  }
}
