/**
 * The Human Formatter engine: `parse` splits a token into its expression and
 * its function calls, `convert` turns a parsed token into text, and `format`
 * runs both over the token tree of a template, deepest generation first.
 *
 * Evaluating an expression against the arguments given to `format` is the
 * parameter `evaluate`; rendering by Python's format-specification
 * mini-language is the parameter `render`; the choice of safe characters for
 * the markers is the parameter `pick`.
 */
module HFormat {
  import opened Wrappers
  import opened Errors
  import opened Strings
  import Placeholder
  import Tokenizer
  import Catalog
  import Conv = Convert

  /** The escape character: the character after it is kept literally. */
  const EscapeChar: char := '!'

  /** What `parse` gives: the expression and the functions of the specification. */
  datatype Parsed = Parsed(expression: string, functions: seq<Catalog.Func>)

  /**
   * Whichever of `a` and `b` occurs more often in `s`, `a` on a tie: the quote
   * `parse` masks (`'` against `"`) and the function separator (`,` against `;`).
   */
  function Majority(s: string, a: char, b: char): (c: char)
    ensures c == a || c == b
    ensures Count(s, c) >= Count(s, a) && Count(s, c) >= Count(s, b)
    ensures Count(s, a) == Count(s, b) ==> c == a
  {
    if Count(s, a) >= Count(s, b) then a else b
  }

  /**
   * `a, b = s.split(c)`: exactly one `c` unpacks into the text before it and
   * the text after it; any other number fails to unpack.
   */
  function SplitPair(s: string, c: char): (r: Result<(string, string), Error>)
    ensures r.Ok? <==> Count(s, c) == 1
    ensures r.Err? ==> r.error == UnpackMismatch(c)
    ensures r.Ok? ==> s == r.value.0 + [c] + r.value.1 && c !in r.value.0 && c !in r.value.1
  {
    var parts := Split(s, c);
    if |parts| != 2 then Err(UnpackMismatch(c))
    else
      SplitJoin(s, c);
      SplitPiecesAvoidSeparator(s, c);
      assert JoinWith(parts, c) == parts[0] + [c] + JoinWith(parts[1..], c);
      assert c !in parts[0] && c !in parts[1];
      Ok((parts[0], parts[1]))
  }

  /**
   * Expression and specification: with no `:` the whole masked token is the
   * expression, as it is; with one `:` the stripped text before and after it;
   * with more, the unpacking error.
   */
  function SplitExpression(safe: string): (r: Result<(string, string), Error>)
    ensures r.Err? <==> Count(safe, ':') > 1
    ensures r.Err? ==> r.error == UnpackMismatch(':')
    ensures Count(safe, ':') == 0 ==> r == Ok((safe, ""))
    ensures Count(safe, ':') == 1 ==>
      exists a, b :: safe == a + ":" + b && ':' !in a && ':' !in b && r == Ok((Strip(a), Strip(b)))
  {
    CountZero(safe, ':');
    if ':' !in safe then Ok((safe, ""))
    else
      var (a, b) :- SplitPair(safe, ':');
      Ok((Strip(a), Strip(b)))
  }

  /**
   * A function call: with no `(` the whole text is the name and there is no
   * argument text; with one `(` the name before it and the argument text after
   * it; with more, the unpacking error.
   */
  function SplitCall(raw: string): (r: Result<(string, Option<string>), Error>)
    ensures r.Err? <==> Count(raw, '(') > 1
    ensures r.Err? ==> r.error == UnpackMismatch('(')
    ensures Count(raw, '(') == 0 ==> r == Ok((raw, None))
    ensures r.Ok? && r.value.1.Some? ==> raw == r.value.0 + "(" + r.value.1.value && '(' !in r.value.0
  {
    CountZero(raw, '(');
    if '(' !in raw then Ok((raw, None))
    else
      var (name, args) :- SplitPair(raw, '(');
      Ok((name, Some(args)))
  }

  /**
   * The argument texts of a call, before unmasking: none for an absent or empty
   * argument text (`f` or `f(`); one empty text for `f()`; otherwise the text without its last character (the `)`),
   * split on `,` and stripped.
   */
  function ArgumentTexts(args: Option<string>): (r: seq<string>)
    ensures args.None? || args.value == [] ==> r == []
    ensures args.Some? && |args.value| == 1 ==> r == [""]
    ensures args.Some? && args.value != [] ==> |r| == Count(args.value[..|args.value| - 1], ',') + 1
    ensures forall k :: 0 <= k < |r| ==> ',' !in r[k] && IsStripped(r[k])
  {
    if args.None? || args.value == [] then []
    else Catalog.Fields(args.value[..|args.value| - 1])
  }

  /**
   * `convert` on a parsed token, for a positional counter at `index`: the
   * expression resolved, evaluated, and turned into text by its functions.
   */
  function ConvertToken(p: Parsed, index: nat, evaluate: string -> Conv.EvalOutcome, render: Conv.Render): (r: Result<string, Error>)
  {
    var expr := Conv.ResolveExpression(p.expression, index).0;
    var v :- Conv.Evaluate(evaluate, expr);
    Conv.Conversion(v, p.functions, render)
  }

  /**
   * A token without functions whose expression names nothing known is its own
   * text, rendered with the empty specification; an empty expression stands
   * for the next positional argument, `_index_`.
   */
  lemma UnknownNameIsLiteral(p: Parsed, index: nat, evaluate: string -> Conv.EvalOutcome, render: Conv.Render)
    requires p.functions == []
    requires evaluate(Conv.ResolveExpression(p.expression, index).0) == Conv.NameFailure
    ensures p.expression != [] && !IsNumeric(p.expression) ==>
      ConvertToken(p, index, evaluate, render) == Ok(render(Conv.Text(p.expression), ""))
    ensures p.expression == [] ==>
      ConvertToken(p, index, evaluate, render) == Ok(render(Conv.Text("_" + NatToString(index) + "_"), ""))
  {
    var expr := Conv.ResolveExpression(p.expression, index).0;
    Conv.ConversionWithoutFunctions(Conv.Text(expr), render);
  }

  /** The calls of a specification: none when it is empty, else its pieces between majority separators. */
  function Calls(specs: string): seq<string> {
    if specs == [] then [] else Split(specs, Majority(specs, ',', ';'))
  }

  /** One function per call, named by the stripped call and given no arguments; the first failure stops. */
  function BuildCalls(defs: Catalog.Definitions, calls: seq<string>): Result<seq<Catalog.Func>, Error>
    decreases |calls|
  {
    if calls == [] then Ok([])
    else
      var f :- Catalog.BuildFunction(defs, Strip(calls[0]), []);
      var rest :- BuildCalls(defs, calls[1..]);
      Ok([f] + rest)
  }

  /** The call at `k` builds `f`. */
  predicate BuildsAs(defs: Catalog.Definitions, calls: seq<string>, k: int, f: Result<Catalog.Func, Error>)
    requires 0 <= k < |calls|
  {
    Catalog.BuildFunction(defs, Strip(calls[k]), []) == f
  }

  /** Call `k` is the first of `calls` that fails to build, with `e`. */
  predicate FirstFailure(defs: Catalog.Definitions, calls: seq<string>, k: int, e: Error) {
    && 0 <= k < |calls|
    && BuildsAs(defs, calls, k, Err(e))
    && forall j :: 0 <= j < k ==> Catalog.BuildFunction(defs, Strip(calls[j]), []).Ok?
  }

  /**
   * Building the calls succeeds with the function of each call, in order, or
   * fails with the error of the first call that fails to build.
   */
  lemma {:induction false} BuildCallsSpec(defs: Catalog.Definitions, calls: seq<string>)
    ensures BuildCalls(defs, calls).Ok? ==> |BuildCalls(defs, calls).value| == |calls|
    ensures BuildCalls(defs, calls).Ok? ==>
      forall k :: 0 <= k < |calls| ==> BuildsAs(defs, calls, k, Ok(BuildCalls(defs, calls).value[k]))
    ensures BuildCalls(defs, calls).Err? ==>
      exists k :: FirstFailure(defs, calls, k, BuildCalls(defs, calls).error)
    decreases |calls|
  {
    if calls != [] {
      var rest := calls[1..];
      BuildCallsSpec(defs, rest);
      var first := Catalog.BuildFunction(defs, Strip(calls[0]), []);
      if first.Ok? {
        var r := BuildCalls(defs, rest);
        if r.Ok? {
          forall k | 0 <= k < |calls|
            ensures BuildsAs(defs, calls, k, Ok(BuildCalls(defs, calls).value[k]))
          {
            if k > 0 {
              assert calls[k] == rest[k - 1];
              assert BuildsAs(defs, rest, k - 1, Ok(r.value[k - 1]));
            }
          }
        } else {
          var k :| FirstFailure(defs, rest, k, r.error);
          assert calls[k + 1] == rest[k];
          assert BuildCalls(defs, calls) == Err(r.error);
          forall j | 0 <= j < k + 1
            ensures Catalog.BuildFunction(defs, Strip(calls[j]), []).Ok?
          {
            if j > 0 {
              assert calls[j] == rest[j - 1];
            }
          }
          assert FirstFailure(defs, calls, k + 1, r.error);
        }
      } else {
        assert FirstFailure(defs, calls, 0, BuildCalls(defs, calls).error);
      }
    }
  }

  /** The calls from `i` on: the call at `i` built, then the rest. */
  lemma BuildCallsFrom(defs: Catalog.Definitions, calls: seq<string>, i: nat)
    requires i < |calls|
    ensures BuildCalls(defs, calls[i..]) ==
      match Catalog.BuildFunction(defs, Strip(calls[i]), [])
      case Err(e) => Err(e)
      case Ok(f) => Prepended([f], BuildCalls(defs, calls[i + 1..]))
  {
    assert calls[i..][0] == calls[i] && calls[i..][1..] == calls[i + 1..];
  }

  /** Having built `fs` from the calls before `i`, the rest decides the outcome. */
  predicate BuiltBefore(defs: Catalog.Definitions, calls: seq<string>, i: int, fs: seq<Catalog.Func>)
    requires 0 <= i <= |calls|
  {
    BuildCalls(defs, calls) == Prepended(fs, BuildCalls(defs, calls[i..]))
  }

  /** The call at `i` building `f` extends what is built; its failure is the outcome. */
  lemma BuiltBeforeStep(defs: Catalog.Definitions, calls: seq<string>, i: nat, fs: seq<Catalog.Func>)
    requires i < |calls| && BuiltBefore(defs, calls, i, fs)
    ensures Catalog.BuildFunction(defs, Strip(calls[i]), []).Ok? ==>
      BuiltBefore(defs, calls, i + 1, fs + [Catalog.BuildFunction(defs, Strip(calls[i]), []).value])
    ensures Catalog.BuildFunction(defs, Strip(calls[i]), []).Err? ==>
      BuildCalls(defs, calls) == Err(Catalog.BuildFunction(defs, Strip(calls[i]), []).error)
  {
    BuildCallsFrom(defs, calls, i);
    var rest := BuildCalls(defs, calls[i + 1..]);
    var first := Catalog.BuildFunction(defs, Strip(calls[i]), []);
    if first.Ok? && rest.Ok? {
      assert fs + ([first.value] + rest.value) == (fs + [first.value]) + rest.value;
    }
  }

  /** Nothing built before the first call; everything built after the last. */
  lemma BuiltBeforeEnds(defs: Catalog.Definitions, calls: seq<string>, fs: seq<Catalog.Func>)
    ensures BuiltBefore(defs, calls, 0, [])
    ensures BuiltBefore(defs, calls, |calls|, fs) ==> BuildCalls(defs, calls) == Ok(fs)
  {
    assert calls[0..] == calls;
    var whole := BuildCalls(defs, calls);
    if whole.Ok? {
      assert [] + whole.value == whole.value;
    }
    assert calls[|calls|..] == [];
    assert fs + [] == fs;
  }

  /** `fs` in front of what `r` builds. */
  function Prepended(fs: seq<Catalog.Func>, r: Result<seq<Catalog.Func>, Error>): Result<seq<Catalog.Func>, Error> {
    if r.Ok? then Ok(fs + r.value) else r
  }

  /** A token `parse` masks nothing in: no escape, no quote, no parenthesis. */
  predicate Unmasked(token: string) {
    EscapeChar !in token && '\'' !in token && '"' !in token && '(' !in token
  }

  /** `parse` of a token it masks nothing in: the split at `:`, then one function per call. */
  function PlainParse(defs: Catalog.Definitions, token: string): Result<Parsed, Error> {
    var (expression, specs) :- SplitExpression(token);
    var functions :- BuildCalls(defs, Calls(specs));
    Ok(Parsed(expression, functions))
  }

  /**
   * What `parse` gives for a token `a:b`: on success the expression is `a`
   * stripped and there is one function per call of `b` stripped, in order; on
   * failure, some call's error.
   */
  ghost predicate ParsedCalls(defs: Catalog.Definitions, a: string, b: string, r: Result<Parsed, Error>) {
    var calls := Calls(Strip(b));
    && (r.Ok? ==>
         && r.value.expression == Strip(a)
         && |r.value.functions| == |calls|
         && forall k :: 0 <= k < |calls| ==> BuildsAs(defs, calls, k, Ok(r.value.functions[k])))
    && (r.Err? ==> exists k :: FirstFailure(defs, calls, k, r.error))
  }

  /**
   * On such a token, `parse` fails to unpack more than one `:`; with none the
   * token is the expression and there are no functions; with one, see
   * `ParsedCalls`.
   */
  lemma PlainParseSpec(defs: Catalog.Definitions, token: string)
    ensures Count(token, ':') > 1 ==> PlainParse(defs, token) == Err(UnpackMismatch(':'))
    ensures Count(token, ':') == 0 ==> PlainParse(defs, token) == Ok(Parsed(token, []))
    ensures Count(token, ':') == 1 ==> exists a, b ::
      token == a + ":" + b && ':' !in a && ':' !in b && ParsedCalls(defs, a, b, PlainParse(defs, token))
  {
    if Count(token, ':') == 1 {
      var split := SplitExpression(token);
      var a, b :| token == a + ":" + b && ':' !in a && ':' !in b && SplitExpression(token) == Ok((Strip(a), Strip(b)));
      PlainParseCalls(defs, token, a, b);
    } else if Count(token, ':') == 0 {
      assert Calls("") == [];
    }
  }

  lemma PlainParseCalls(defs: Catalog.Definitions, token: string, a: string, b: string)
    requires SplitExpression(token) == Ok((Strip(a), Strip(b)))
    ensures ParsedCalls(defs, a, b, PlainParse(defs, token))
  {
    var calls := Calls(Strip(b));
    BuildCallsSpec(defs, calls);
    var built := BuildCalls(defs, calls);
    assert PlainParse(defs, token) == if built.Ok? then Ok(Parsed(Strip(a), built.value)) else Err(built.error);
  }

  /** A character missing from the token is missing from its specification part. */
  lemma SplitExpressionAvoids(safe: string, x: char)
    requires x !in safe
    ensures SplitExpression(safe).Ok? ==> x !in SplitExpression(safe).value.1
  {
    if Count(safe, ':') == 1 {
      var split := SplitExpression(safe);
      var a, b :| safe == a + ":" + b && ':' !in a && ':' !in b && split == Ok((Strip(a), Strip(b)));
      assert b == safe[|a| + 1..];
      StripAvoids(b, x);
    }
  }

  /** `convert` after `parse` of a token `parse` masks nothing in. */
  function PlainConvert(defs: Catalog.Definitions, text: string, index: nat,
                        evaluate: string -> Conv.EvalOutcome, render: Conv.Render): Result<string, Error>
  {
    var p :- PlainParse(defs, text);
    ConvertToken(p, index, evaluate, render)
  }

  /**
   * `r` is what `parse` then `convert` may give for `text` with the positional
   * counter at `index`: exactly the plain outcome when `parse` masks nothing,
   * and in any case, on success, the conversion of some parse whose functions
   * the catalog builds.
   */
  ghost predicate ConvertsTo(groups: seq<Catalog.RawGroup>, evaluate: string -> Conv.EvalOutcome, render: Conv.Render,
                             text: string, index: nat, r: Result<string, Error>)
  {
    && (Unmasked(text) ==> r == PlainConvert(Catalog.Load(groups), text, index, evaluate, render))
    && (r.Ok? ==> exists p: Parsed ::
          && (forall f :: f in p.functions ==> Built(groups, f))
          && r == ConvertToken(p, index, evaluate, render))
  }

  /** `parse` then `convert`, from what each of them promises, is what `ConvertsTo` allows. */
  lemma ParseThenConvert(groups: seq<Catalog.RawGroup>, evaluate: string -> Conv.EvalOutcome, render: Conv.Render,
                         text: string, index: nat, parsed: Result<Parsed, Error>, r: Result<string, Error>)
    requires Unmasked(text) ==> parsed == PlainParse(Catalog.Load(groups), text)
    requires parsed.Ok? ==> forall f :: f in parsed.value.functions ==> Built(groups, f)
    requires parsed.Err? ==> r == Err(parsed.error)
    requires parsed.Ok? ==> r == ConvertToken(parsed.value, index, evaluate, render)
    ensures ConvertsTo(groups, evaluate, render, text, index, r)
  {
    if r.Ok? {
      assert parsed.Ok?;
      var p := parsed.value;
      assert (forall f :: f in p.functions ==> Built(groups, f)) && r == ConvertToken(p, index, evaluate, render);
    }
  }

  /**
   * The conversion stored in `t` is what `parse` then `convert` give for its
   * text with its children's conversions put back, at some positional counter.
   */
  ghost predicate Converted(t: Tokenizer.Token, groups: seq<Catalog.RawGroup>,
                            evaluate: string -> Conv.EvalOutcome, render: Conv.Render)
    reads t, t.children
  {
    && t.conversion.Some?
    && t.Substituted().Ok?
    && exists index: nat :: ConvertsTo(groups, evaluate, render, t.Substituted().value, index, Ok(t.conversion.value))
  }

  /** A function `parse` may give: one the catalog of `groups` builds for some name and arguments. */
  ghost predicate Built(groups: seq<Catalog.RawGroup>, f: Catalog.Func) {
    exists name, given :: Catalog.BuildFunction(Catalog.Load(groups), name, given) == Ok(f)
  }

  /** An error the catalog of `groups` gives for some name and arguments. */
  ghost predicate BuildError(groups: seq<Catalog.RawGroup>, e: Error) {
    exists name, given :: Catalog.BuildFunction(Catalog.Load(groups), name, given) == Err(e)
  }

  class HumanFormatter {
    /** `original`: the template last given to `format`. */
    var original: string
    /** `final`: the last conversion. */
    var final: string
    /** `_positional_args_index`: the next positional argument an empty expression takes. */
    var positionalIndex: nat
    /** `given_args`, as the evaluation of expressions against them. */
    var evaluate: string -> Conv.EvalOutcome
    /** The function definitions, shared by every formatter. */
    const catalog: Catalog.FunctionCatalog
    const render: Conv.Render
    const pick: nat -> nat

    ghost predicate Valid()
      reads this, catalog
    {
      catalog.Valid()
    }

    constructor (catalog: Catalog.FunctionCatalog, render: Conv.Render, pick: nat -> nat)
      requires catalog.Valid()
      ensures Valid()
      ensures original == "" && final == "" && positionalIndex == 0
      ensures this.catalog == catalog && this.render == render && this.pick == pick
    {
      original := "";
      final := "";
      positionalIndex := 0;
      evaluate := (e: string) => Conv.NameFailure;
      this.catalog := catalog;
      this.render := render;
      this.pick := pick;
    }

    /**
     * `parse`: escapes and quoted text masked, the expression split from the
     * specification and unmasked, and one function built per call of the
     * specification. A token with no escape, no quote and no `:` is an
     * expression without functions.
     */
    method Parse(token: string) returns (res: Result<Parsed, Error>)
      requires Valid()
      modifies catalog
      ensures Valid()
      ensures (EscapeChar !in token && '\'' !in token && '"' !in token && ':' !in token) ==>
        res == Ok(Parsed(token, []))
      ensures Unmasked(token) ==> res == PlainParse(Catalog.Load(catalog.groups), token)
      ensures res.Ok? ==> forall f :: f in res.value.functions ==> Built(catalog.groups, f)
      ensures res.Err? ==>
        res.error == UnpackMismatch(':') || res.error == UnpackMismatch('(') || BuildError(catalog.groups, res.error)
    {
      var bare := EscapeChar !in token && '\'' !in token && '"' !in token;
      var handler := new Placeholder.PlaceholderHandler(pick);
      var stop := Placeholder.StopAfter(1);
      var safe, group := handler.After(token, EscapeChar, stop);
      if bare {
        Placeholder.NoIdcharNoRuns(token, EscapeChar, Placeholder.StopChars(stop), Placeholder.StopLimit(stop));
        assert handler.records == [];
        assert safe == token;
      }
      var quote := Majority(token, '\'', '"');
      safe, group := handler.Between(safe, quote, None);
      if bare {
        Placeholder.NoOpenerNoRegions(token, quote, Placeholder.CloserOf(quote, None));
        assert handler.records == [];
        assert safe == token;
        CountZero(token, ':');
        if '(' !in token {
          SplitExpressionAvoids(token, '(');
        }
      }
      var split := SplitExpression(safe);
      if split.Err? {
        return Err(split.error);
      }
      var (masked, specs) := split.value;
      var expression := handler.Revert(masked, false);
      var functions: seq<Catalog.Func> := [];
      if specs != [] {
        var built := ParseFunctions(handler, specs);
        if built.Err? {
          return Err(built.error);
        }
        functions := built.value;
      }
      return Ok(Parsed(expression, functions));
    }

    /**
     * The specification part of `parse`: parenthesised arguments masked, the
     * calls split on the majority separator, each call stripped with its
     * arguments put back, split into name and arguments, and built.
     */
    method ParseFunctions(handler: Placeholder.PlaceholderHandler, specs: string) returns (res: Result<seq<Catalog.Func>, Error>)
      requires Valid() && handler.Valid()
      modifies handler, catalog
      ensures Valid() && handler.Valid()
      ensures res.Ok? ==> forall f :: f in res.value ==> Built(catalog.groups, f)
      ensures res.Err? ==> res.error == UnpackMismatch('(') || BuildError(catalog.groups, res.error)
      ensures old(handler.records) == [] && '(' !in specs ==>
        res == BuildCalls(Catalog.Load(catalog.groups), Split(specs, Majority(specs, ',', ';')))
    {
      ghost var plain := handler.records == [] && '(' !in specs;
      ghost var defs := Catalog.Load(catalog.groups);
      var safeSpecs, group := handler.Between(specs, '(', Some(')'));
      if plain {
        Placeholder.NoOpenerNoRegions(specs, '(', Placeholder.CloserOf('(', Some(')')));
        assert handler.records == [];
        assert safeSpecs == specs;
      }
      var separator := Majority(safeSpecs, ',', ';');
      var rawFuncs := Split(safeSpecs, separator);
      if plain {
        SplitPiecesAvoid(safeSpecs, separator, '(');
      }
      res := BuildAll(handler, rawFuncs);
    }

    /** The calls built one after the other; the first failure stops. */
    method BuildAll(handler: Placeholder.PlaceholderHandler, rawFuncs: seq<string>) returns (res: Result<seq<Catalog.Func>, Error>)
      requires Valid() && handler.Valid()
      modifies catalog
      ensures Valid()
      ensures res.Ok? ==> forall f :: f in res.value ==> Built(catalog.groups, f)
      ensures res.Err? ==> res.error == UnpackMismatch('(') || BuildError(catalog.groups, res.error)
      ensures handler.records == [] && (forall k :: 0 <= k < |rawFuncs| ==> '(' !in rawFuncs[k]) ==>
        res == BuildCalls(Catalog.Load(catalog.groups), rawFuncs)
    {
      ghost var plain := handler.records == [] && forall k :: 0 <= k < |rawFuncs| ==> '(' !in rawFuncs[k];
      ghost var defs := Catalog.Load(catalog.groups);
      var functions: seq<Catalog.Func> := [];
      BuiltBeforeEnds(defs, rawFuncs, functions);
      for i := 0 to |rawFuncs|
        invariant Valid()
        invariant forall f :: f in functions ==> Built(catalog.groups, f)
        invariant plain ==> BuiltBefore(defs, rawFuncs, i, functions)
      {
        var f := BuildCall(handler, rawFuncs[i]);
        if plain {
          BuiltBeforeStep(defs, rawFuncs, i, functions);
        }
        if f.Err? {
          return Err(f.error);
        }
        functions := functions + [f.value];
      }
      BuiltBeforeEnds(defs, rawFuncs, functions);
      return Ok(functions);
    }

    /**
     * One call of the specification: stripped, its arguments put back, split
     * into name and argument text, each argument unmasked, and built.
     */
    method BuildCall(handler: Placeholder.PlaceholderHandler, rawCall: string) returns (res: Result<Catalog.Func, Error>)
      requires Valid() && handler.Valid()
      modifies catalog
      ensures Valid()
      ensures res.Ok? ==> Built(catalog.groups, res.value)
      ensures res.Err? ==> res.error == UnpackMismatch('(') || BuildError(catalog.groups, res.error)
      ensures handler.records == [] && '(' !in rawCall ==>
        res == Catalog.BuildFunction(Catalog.Load(catalog.groups), Strip(rawCall), [])
    {
      var raw := Strip(rawCall);
      if '(' !in rawCall {
        StripAvoids(rawCall, '(');
        CountZero(raw, '(');
      }
      raw := handler.RevertLast(raw, false);
      var call := SplitCall(raw);
      if call.Err? {
        return Err(call.error);
      }
      var (name, rawArgs) := call.value;
      var texts := ArgumentTexts(rawArgs);
      var args: seq<string> := [];
      for j := 0 to |texts|
        invariant Valid()
        invariant handler.records == [] ==> args == texts[..j]
      {
        var arg := handler.Revert(texts[j], true);
        args := args + [arg];
      }
      res := catalog.Build(name, args);
    }

    /**
     * `convert`: an empty expression takes the next positional argument and
     * moves the counter on; the result is the token's conversion, which
     * becomes `final`.
     */
    method Convert(p: Parsed) returns (res: Result<string, Error>)
      modifies this
      ensures positionalIndex == Conv.ResolveExpression(p.expression, old(positionalIndex)).1
      ensures positionalIndex == old(positionalIndex) + (if p.expression == [] then 1 else 0)
      ensures res == ConvertToken(p, old(positionalIndex), evaluate, render)
      ensures res.Ok? ==> final == res.value
      ensures res.Err? ==> final == old(final)
      ensures original == old(original) && evaluate == old(evaluate)
    {
      var resolved := Conv.ResolveExpression(p.expression, positionalIndex);
      positionalIndex := resolved.1;
      var v := Conv.Evaluate(evaluate, resolved.0);
      if v.Err? {
        return Err(v.error);
      }
      res := Conv.ConvertFields(v.value, p.functions, render);
      if res.Ok? {
        final := res.value;
      }
    }

    /**
     * `format`: the template's token tree, then every generation from the
     * deepest up, each token of it parsed and converted from its text with its
     * children's conversions put back; generation 0, the template itself, only
     * has its children's conversions put back. The positional counter carries
     * on from earlier calls.
     */
    method Format(template: string, evaluate: string -> Conv.EvalOutcome)
      returns (res: Result<string, Error>, ghost levels: seq<nat>, ghost tree: seq<Tokenizer.Token>)
      requires Valid()
      modifies this, catalog
      ensures Valid()
      ensures original == template && this.evaluate == evaluate
      ensures positionalIndex >= old(positionalIndex)
      ensures Tokenizer.TopLevel(template, 0).Err? ==> res == Err(Tokenizer.TopLevel(template, 0).error)
      ensures '}' !in template ==> res == Ok(template)
      ensures forall i, j :: 0 <= i < j < |levels| ==> levels[i] > levels[j]
      ensures res.Ok? ==> |levels| > 0 && levels[|levels| - 1] == 0
      ensures res.Ok? ==>
        && |tree| > 0 && tree[0].Valid() && tree == tree[0].Subtree()
        && tree[0].text == template && tree[0].gen == 0
        && res == tree[0].Substituted()
      ensures res.Ok? ==> forall g :: g in levels <==> Tokenizer.OfGen(tree, g) != []
      ensures res.Ok? ==> forall t :: t in tree && t.gen > 0 ==> Converted(t, catalog.groups, evaluate, render)
    {
      original := template;
      this.evaluate := evaluate;
      if '}' !in template {
        Tokenizer.NoCloserNoChildren(template, 0);
      }
      var built := Tokenizer.Token.Build(template, 0);
      if built.Err? {
        return Err(built.error), [], [];
      }
      var main := built.value;
      main.SubtreeMembers();
      tree := main.Subtree();
      res, levels := RunLevels(main);
    }

    /**
     * The loop of `format` over the generations of `main`'s tree, deepest
     * first: generation 0 is only substituted, and gives the result.
     */
    method RunLevels(main: Tokenizer.Token) returns (res: Result<string, Error>, ghost levels: seq<nat>)
      requires Valid() && main.Valid() && main.gen == 0
      modifies this, catalog, set t | t in main.Subtree()
      ensures Valid()
      ensures original == old(original) && evaluate == old(evaluate)
      ensures positionalIndex >= old(positionalIndex)
      ensures main.children == [] ==> res == Ok(main.text)
      ensures forall i, j :: 0 <= i < j < |levels| ==> levels[i] > levels[j]
      ensures res.Ok? ==> |levels| > 0 && levels[|levels| - 1] == 0
      ensures res.Ok? ==> forall g :: g in levels <==> Tokenizer.OfGen(main.Subtree(), g) != []
      ensures res.Ok? ==> forall t :: t in main.Subtree() && t.gen > 0 ==> Converted(t, catalog.groups, evaluate, render)
      ensures res.Ok? ==> res == main.Substituted()
    {
      levels := [];
      var list := Generations(main);
      var top := TopLevelOf(list);
      res, levels := LevelLoop(main, list, top);
    }

    /**
     * What the loop of `format` needs of `main.list()`: the template first in
     * generation 0, and under each generation present exactly the tokens of
     * the tree of that generation.
     */
    static ghost predicate GenerationsOf(main: Tokenizer.Token, list: map<nat, seq<Tokenizer.Token>>)
      requires main.Valid()
    {
      && 0 in list && |list[0]| > 0 && list[0][0] == main
      && (main.children == [] ==> list.Keys == {0})
      && (forall g, t :: g in list && t in list[g] ==> t in main.Subtree() && t.gen == g && t.Valid())
      && (forall t :: t in main.Subtree() ==> t.gen in list && t in list[t.gen])
      && (forall g :: g in list <==> Tokenizer.OfGen(main.Subtree(), g) != [])
    }

    static lemma GenerationMap(main: Tokenizer.Token, list: map<nat, seq<Tokenizer.Token>>)
      requires main.Valid() && main.gen == 0 && list == main.List()
      ensures GenerationsOf(main, list)
    {
      main.FirstOfOwnGeneration();
      if main.children == [] {
        assert list == map[0 := [main]];
      }
      forall g | true
        ensures Tokenizer.Get(list, g) == Tokenizer.OfGen(main.Subtree(), g)
        ensures g in list <==> Tokenizer.OfGen(main.Subtree(), g) != []
      {
        main.ListByGeneration(g);
      }
      GenerationMembers(main, list);
    }

    /** A map holding each generation of the tree holds exactly its tokens. */
    static lemma GenerationMembers(main: Tokenizer.Token, list: map<nat, seq<Tokenizer.Token>>)
      requires main.Valid()
      requires forall g :: Tokenizer.Get(list, g) == Tokenizer.OfGen(main.Subtree(), g)
      ensures forall g, t :: g in list && t in list[g] ==> t in main.Subtree() && t.gen == g && t.Valid()
      ensures forall t :: t in main.Subtree() ==> t.gen in list && t in list[t.gen]
    {
      main.SubtreeMembers();
      forall g | true
        ensures forall t :: t in Tokenizer.OfGen(main.Subtree(), g) <==> t in main.Subtree() && t.gen == g
      {
        Tokenizer.OfGenMembers(main.Subtree(), g);
      }
      forall g, t | g in list && t in list[g]
        ensures t in main.Subtree() && t.gen == g
      {
        assert Tokenizer.Get(list, g) == list[g];
      }
      forall t | t in main.Subtree()
        ensures t.gen in list && t in list[t.gen]
      {
        assert t in Tokenizer.Get(list, t.gen);
      }
    }

    /** `main.list()`, the tokens of the tree by generation. */
    static method Generations(main: Tokenizer.Token) returns (list: map<nat, seq<Tokenizer.Token>>)
      requires main.Valid() && main.gen == 0
      ensures GenerationsOf(main, list)
    {
      list := main.List();
      GenerationMap(main, list);
    }

    /**
     * The generations from `top` down to 1, each present one converted; the
     * first failure stops the loop.  Generation 0, the template itself, is
     * always present and always last in the sorted order, so it is
     * substituted after the loop.
     */
    method LevelLoop(main: Tokenizer.Token, list: map<nat, seq<Tokenizer.Token>>, top: nat)
      returns (res: Result<string, Error>, ghost levels: seq<nat>)
      requires Valid() && main.Valid() && main.gen == 0
      requires 0 in list && |list[0]| > 0 && list[0][0] == main
      requires forall g, t :: g in list && t in list[g] ==> t in main.Subtree() && t.gen == g && t.Valid()
      requires forall g :: g in list ==> g <= top
      requires main.children == [] ==> top == 0
      modifies this, catalog, set t | t in main.Subtree()
      ensures Valid()
      ensures original == old(original) && evaluate == old(evaluate)
      ensures positionalIndex >= old(positionalIndex)
      ensures main.children == [] ==> res == Ok(main.text)
      ensures forall i, j :: 0 <= i < j < |levels| ==> levels[i] > levels[j]
      ensures forall g :: g in levels ==> g in list
      ensures res.Ok? ==> |levels| > 0 && levels[|levels| - 1] == 0
      ensures |levels| > 0 && levels[|levels| - 1] == 0 ==>
        && (forall g :: g in list ==> g in levels)
        && (forall g, t :: g in list && g > 0 && t in list[g] ==> Converted(t, catalog.groups, evaluate, render))
        && res == main.Substituted()
    {
      levels := [];
      for step := 0 to top
        invariant Valid() && original == old(original) && evaluate == old(evaluate)
        invariant positionalIndex >= old(positionalIndex)
        invariant forall i, j :: 0 <= i < j < |levels| ==> levels[i] > levels[j]
        invariant forall i :: 0 <= i < |levels| ==> levels[i] > top - step
        invariant forall g :: g in levels ==> g in list
        invariant forall g :: g in list && g > top - step ==> g in levels
        invariant forall g, t :: g in list && g > top - step && t in list[g] ==>
          Converted(t, catalog.groups, evaluate, render)
      {
        var level: nat := top - step;
        if level in list {
          var done := ConvertLevel(list, level);
          if done.Err? {
            return Err(done.error), levels + [level];
          }
          levels := levels + [level];
        }
      }
      res := list[0][0].ReplaceChildConversions();
      levels := levels + [0];
    }

    /**
     * One generation of the loop of `format` converted; the deeper ones keep
     * their conversions, as neither they nor their children are of this one.
     */
    method ConvertLevel(list: map<nat, seq<Tokenizer.Token>>, level: nat) returns (res: Result<(), Error>)
      requires Valid() && level in list
      requires forall g, t :: g in list && t in list[g] ==> t.gen == g && t.Valid()
      requires forall g, t :: g in list && g > level && t in list[g] ==> Converted(t, catalog.groups, evaluate, render)
      modifies this, catalog, set t | t in list[level]
      ensures Valid()
      ensures original == old(original) && evaluate == old(evaluate)
      ensures positionalIndex >= old(positionalIndex)
      ensures res.Ok? ==>
        forall g, t :: g in list && g >= level && t in list[g] ==> Converted(t, catalog.groups, evaluate, render)
    {
      forall g, t | g in list && t in list[g]
        ensures forall c :: c in t.children ==> c.gen == g + 1
      {
        Tokenizer.ChildrenOneDeeper(t);
      }
      res := ConvertGeneration(list[level], level);
    }

    /** One token: parsed from its text with its children's conversions put back, then converted. */
    method ConvertOne(token: Tokenizer.Token) returns (res: Result<string, Error>)
      requires Valid()
      modifies this, catalog
      ensures Valid()
      ensures original == old(original) && evaluate == old(evaluate)
      ensures positionalIndex >= old(positionalIndex)
      ensures token.Substituted().Err? ==> res == Err(token.Substituted().error)
      ensures token.Substituted().Ok? ==>
        ConvertsTo(catalog.groups, evaluate, render, token.Substituted().value, old(positionalIndex), res)
    {
      var text := token.ReplaceChildConversions();
      if text.Err? {
        return Err(text.error);
      }
      ghost var index := positionalIndex;
      var parsed := Parse(text.value);
      if parsed.Err? {
        res := Err(parsed.error);
      } else {
        res := Convert(parsed.value);
      }
      ParseThenConvert(catalog.groups, evaluate, render, text.value, index, parsed, res);
    }

    /** The deepest generation present: the largest key of the generation map. */
    static method TopLevelOf(list: map<nat, seq<Tokenizer.Token>>) returns (top: nat)
      ensures forall g :: g in list ==> g <= top
      ensures list != map[] ==> top in list
      ensures list.Keys == {0} ==> top == 0
    {
      top := 0;
      var keys := list.Keys;
      var seen := false;
      while keys != {}
        invariant keys <= list.Keys
        invariant forall g :: g in list.Keys - keys ==> g <= top
        invariant seen ==> top in list
        invariant !seen ==> top == 0 && keys == list.Keys
        decreases |keys|
      {
        var g :| g in keys;
        ghost var earlier := keys;
        if !seen || g > top {
          top := g;
        }
        seen := true;
        keys := keys - {g};
        assert forall h :: h in list.Keys - keys ==> h == g || h in list.Keys - earlier;
      }
      forall g | g in list
        ensures g <= top
      {
        assert g in list.Keys - keys;
      }
    }

    /**
     * One generation below the template: each token, in order, parsed from its
     * text with its children's conversions put back, converted, and given that
     * conversion; the first failure stops the loop.
     */
    method ConvertGeneration(tokens: seq<Tokenizer.Token>, ghost g: nat) returns (res: Result<(), Error>)
      requires Valid()
      requires forall t :: t in tokens ==> t.gen == g && t.Valid()
      modifies this, catalog, set t | t in tokens
      ensures Valid()
      ensures original == old(original) && evaluate == old(evaluate)
      ensures positionalIndex >= old(positionalIndex)
      ensures res.Ok? ==> forall t :: t in tokens ==> Converted(t, catalog.groups, evaluate, render)
    {
      forall t | t in tokens
        ensures forall c :: c in t.children ==> c.gen == g + 1
      {
        Tokenizer.ChildrenOneDeeper(t);
      }
      for i := 0 to |tokens|
        invariant Valid() && original == old(original) && evaluate == old(evaluate)
        invariant positionalIndex >= old(positionalIndex)
        invariant forall u :: u in tokens[..i] ==> Converted(u, catalog.groups, evaluate, render)
      {
        var done := ConvertStep(tokens[i], tokens[..i]);
        if done.Err? {
          return done;
        }
        assert tokens[..i + 1] == tokens[..i] + [tokens[i]];
      }
      assert tokens[..|tokens|] == tokens;
      return Ok(());
    }

    /** One token of a generation converted and given its conversion; the failure stops. */
    method ConvertStep(token: Tokenizer.Token, ghost done: seq<Tokenizer.Token>) returns (res: Result<(), Error>)
      requires Valid()
      requires token !in token.children
      requires forall u :: u in done ==> token !in u.children && Converted(u, catalog.groups, evaluate, render)
      modifies this, catalog, token
      ensures Valid()
      ensures original == old(original) && evaluate == old(evaluate)
      ensures positionalIndex >= old(positionalIndex)
      ensures res.Ok? ==> forall u :: u in done + [token] ==> Converted(u, catalog.groups, evaluate, render)
    {
      ghost var index := positionalIndex;
      var conversion := ConvertOne(token);
      if conversion.Err? {
        return Err(conversion.error);
      }
      Store(token, conversion.value, done, catalog.groups, evaluate, render, index);
      return Ok(());
    }

    /**
     * A token given its conversion; the tokens of its generation already
     * converted keep theirs, as none of them is its child.
     */
    static method Store(token: Tokenizer.Token, value: string, ghost done: seq<Tokenizer.Token>,
                        ghost groups: seq<Catalog.RawGroup>, ghost evaluate: string -> Conv.EvalOutcome,
                        ghost render: Conv.Render, ghost index: nat)
      requires token.Substituted().Ok? && token !in token.children
      requires ConvertsTo(groups, evaluate, render, token.Substituted().value, index, Ok(value))
      requires forall u :: u in done ==> token !in u.children && Converted(u, groups, evaluate, render)
      modifies token
      ensures token.conversion == Some(value)
      ensures forall u :: u in done + [token] ==> Converted(u, groups, evaluate, render)
    {
      ghost var before := token.Substituted();
      token.conversion := Some(value);
      assert token.Substituted() == before;
      forall u | u in done
        ensures Converted(u, groups, evaluate, render)
      {
        assert u.Substituted() == old(u.Substituted());
      }
    }
  }
}
