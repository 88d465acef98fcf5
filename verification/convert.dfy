/**
 * What `HumanFormatter.convert` does once the expression is evaluated: the
 * first-match function lookup, the translation of the functions into the
 * fields of Python's format specification, the pre-formatting steps
 * (separators, trimming, relative width) and the post-processing of the
 * rendered text (multi-character fill, canvas fill, wrapping).
 *
 * The rendering by Python's format-specification mini-language is the
 * parameter `render`; it is never interpreted.
 */
module Convert {
  import opened Wrappers
  import opened Errors
  import opened Strings
  import opened Catalog

  /** Stands for each canvas fill position until the wrapper halves replace it. */
  const CanvasFill: char := '\U{5}'
  /** Holds the thousands separator while the decimal point is swapped. */
  const Misc: char := '\U{6}'
  /** Stands for each fill position until the multi-character fill replaces it. */
  const MultiFill: char := '\U{7}'

  /** What an expression evaluates to: a string, or some other Python object. */
  datatype Value = Text(s: string) | Object(id: nat)

  /** Evaluating an expression gives a value, a NameError, or any other exception. */
  datatype EvalOutcome = Evaluated(value: Value) | NameFailure | OtherFailure

  /** `"{0:{1}}".format(value, spec)` */
  type Render = (Value, string) -> string

  // ---------------------------------------------------------------- expression

  /**
   * The expression to evaluate and the next positional index: an empty
   * expression names the next positional argument `_i_` and advances the
   * index; a numeral `n` names positional argument `_n_`.
   */
  function ResolveExpression(expr: string, index: nat): (r: (string, nat))
    ensures r.0 != [] && !IsNumeric(r.0)
    ensures r.1 == if expr == [] then index + 1 else index
    ensures expr != [] && !IsNumeric(expr) ==> r.0 == expr
    ensures expr == [] ==>
      |r.0| >= 2 && r.0[0] == '_' && r.0[|r.0| - 1] == '_' && ParseInt(r.0[1..|r.0| - 1]) == Some(index)
    ensures IsNumeric(expr) ==>
      |r.0| >= 2 && r.0[0] == '_' && r.0[|r.0| - 1] == '_' && r.0[1..|r.0| - 1] == expr
  {
    var e := if expr == [] then "_" + NatToString(index) + "_" else expr;
    var e' := if IsNumeric(e) then "_" + e + "_" else e;
    assert expr == [] ==> e[1..|e| - 1] == NatToString(index) && ParseInt(NatToString(index)) == Some(index) by {
      if expr == [] {
        IntToStringRoundTrip(index);
      }
    }
    assert IsNumeric(e) ==> e'[0] == '_' && !IsDigit(e'[0]);
    (e', if expr == [] then index + 1 else index)
  }

  /** The value of the expression; a NameError makes the expression its own text. */
  function Evaluate(eval: string -> EvalOutcome, expr: string): (r: Result<Value, Error>)
    ensures r.Ok? <==> !eval(expr).OtherFailure?
    ensures eval(expr).NameFailure? ==> r == Ok(Text(expr))
    ensures eval(expr).Evaluated? ==> r == Ok(eval(expr).value)
  {
    match eval(expr)
    case Evaluated(v) => Ok(v)
    case NameFailure => Ok(Text(expr))
    case OtherFailure => Err(EvaluationFailed(expr))
  }

  // ---------------------------------------------------------------- lookup

  /** The first function in list order called `name`. */
  function FindNamed(fns: seq<Func>, name: string): Option<Func>
    decreases |fns|
  {
    if fns == [] then None
    else if fns[0].name == name then Some(fns[0])
    else FindNamed(fns[1..], name)
  }

  /** `get_func(*names)`: names in priority order, then functions in list order. */
  function FindFunc(fns: seq<Func>, names: seq<string>): Option<Func>
    decreases |names|
  {
    if names == [] then None
    else
      var f := FindNamed(fns, names[0]);
      if f.Some? then f else FindFunc(fns, names[1..])
  }

  lemma {:induction false} FindNamedFirst(fns: seq<Func>, name: string)
    ensures FindNamed(fns, name).None? <==> forall i :: 0 <= i < |fns| ==> fns[i].name != name
    ensures FindNamed(fns, name).Some? ==> exists i ::
      && 0 <= i < |fns| && FindNamed(fns, name) == Some(fns[i]) && fns[i].name == name
      && forall i' :: 0 <= i' < i ==> fns[i'].name != name
    decreases |fns|
  {
    if fns != [] && fns[0].name != name {
      FindNamedFirst(fns[1..], name);
      if FindNamed(fns, name).Some? {
        var i :| 0 <= i < |fns[1..]| && FindNamed(fns[1..], name) == Some(fns[1..][i]) &&
          fns[1..][i].name == name && forall i' :: 0 <= i' < i ==> fns[1..][i'].name != name;
        assert forall i' :: 0 <= i' < i + 1 ==> fns[i'].name != name by {
          forall i' | 0 <= i' < i + 1 ensures fns[i'].name != name {
            if i' > 0 {
              assert fns[i'] == fns[1..][i' - 1];
            }
          }
        }
      }
    }
  }

  /**
   * `fns[i]` is called `names[j]`, no function has an earlier name, and no
   * earlier function has this one.
   */
  ghost predicate FirstMatch(fns: seq<Func>, names: seq<string>, i: int, j: int) {
    && 0 <= i < |fns| && 0 <= j < |names| && fns[i].name == names[j]
    && (forall i', j' :: 0 <= i' < |fns| && 0 <= j' < j ==> fns[i'].name != names[j'])
    && (forall i' :: 0 <= i' < i ==> fns[i'].name != names[j])
  }

  /**
   * The function found is the first, in list order, of those called by the
   * first name that any function has; nothing is found iff no function has
   * any of the names.
   */
  lemma {:induction false} FindFuncFirstMatch(fns: seq<Func>, names: seq<string>)
    ensures FindFunc(fns, names).None? <==>
      forall i, j :: 0 <= i < |fns| && 0 <= j < |names| ==> fns[i].name != names[j]
    ensures FindFunc(fns, names).Some? ==> exists i, j ::
      FirstMatch(fns, names, i, j) && FindFunc(fns, names) == Some(fns[i])
    decreases |names|
  {
    if names != [] {
      FindNamedFirst(fns, names[0]);
      FindFuncFirstMatch(fns, names[1..]);
      if FindNamed(fns, names[0]).Some? {
        var i :| 0 <= i < |fns| && FindNamed(fns, names[0]) == Some(fns[i]) &&
          fns[i].name == names[0] && forall i' :: 0 <= i' < i ==> fns[i'].name != names[0];
        assert FirstMatch(fns, names, i, 0) && FindFunc(fns, names) == Some(fns[i]);
      } else if FindFunc(fns, names).Some? {
        var i, j :| FirstMatch(fns, names[1..], i, j) && FindFunc(fns, names[1..]) == Some(fns[i]);
        assert fns[i].name == names[j + 1];
        forall i', j' | 0 <= i' < |fns| && 0 <= j' < j + 1 ensures fns[i'].name != names[j'] {
          if j' > 0 {
            assert names[j'] == names[1..][j' - 1];
          }
        }
        assert FirstMatch(fns, names, i, j + 1);
      } else {
        forall i, j | 0 <= i < |fns| && 0 <= j < |names| ensures fns[i].name != names[j] {
          if j > 0 {
            assert names[j] == names[1..][j - 1];
          }
        }
      }
    }
  }

  /** The lookup loop of `get_func`, returning at the first match. */
  method GetFunc(fns: seq<Func>, names: seq<string>) returns (found: Option<Func>)
    ensures found == FindFunc(fns, names)
  {
    for j := 0 to |names|
      invariant FindFunc(fns, names) == FindFunc(fns, names[j..])
    {
      assert names[j..][1..] == names[j + 1..];
      for i := 0 to |fns|
        invariant FindNamed(fns, names[j]) == FindNamed(fns[i..], names[j])
      {
        assert fns[i..][1..] == fns[i + 1..];
        if fns[i].name == names[j] {
          return Some(fns[i]);
        }
      }
    }
    return None;
  }

  /** `args.get(key, default)`: a value stored as None is returned as None. */
  function ArgGet(f: Func, key: ArgKey, default: Option<string>): Option<string> {
    if key in f.args then f.args[key] else default
  }

  /** `x or default` on an optional string: None and "" give the default. */
  function OrDefault(x: Option<string>, default: string): string {
    if x.None? || x.value == [] then default else x.value
  }

  // ---------------------------------------------------------------- fields

  /** The fill character, the alignment it implies, the canvas wrapper and the multi-character fill. */
  datatype FillSpec = FillSpec(fill: string, align: string, wrapper: string, multifill: Option<string>)

  /**
   * The canvas reading of a fill spec. Odd length: the middle character is the
   * fill, the others form the wrapper. Even length: the whole spec is the
   * wrapper and the fill is the canvas sentinel.
   */
  function CanvasSplit(spec: string): (r: (string, string))
    ensures |spec| % 2 == 1 ==> |r.0| == 1 && |r.1| == |spec| - 1 && r.1[..|spec| / 2] + r.0 + r.1[|spec| / 2..] == spec
    ensures |spec| % 2 == 0 ==> r.0 == [CanvasFill] && r.1 == spec
  {
    var h := |spec| / 2;
    if |spec| % 2 == 1 then
      var r := ([spec[h]], spec[..h] + spec[h + 1..]);
      assert r.1[..h] == spec[..h] && r.1[h..] == spec[h + 1..];
      assert spec == spec[..h] + [spec[h]] + spec[h + 1..];
      r
    else
      assert spec[..h] + spec[h..] == spec;
      ([CanvasFill], spec[..h] + spec[h..])
  }

  /**
   * The fill fields from the first of `fill`, `field`, `canvas`: a fill of more
   * than one character becomes the multi-character sentinel; a `fillchar`
   * given as None fails.
   */
  function FillOf(f: Option<Func>): (r: Result<FillSpec, Error>)
    ensures f.None? ==> r == Ok(FillSpec("", "", "", None))
    ensures r.Err? <==> f.Some? && ArgGet(f.value, Named("fillchar"), Some("")).None?
    ensures r.Ok? ==> |r.value.fill| <= 1
    ensures r.Ok? && r.value.multifill.Some? ==> |r.value.multifill.value| > 1 && r.value.fill == [MultiFill]
    ensures r.Ok? && f.Some? ==> r.value.align == "<"
    ensures r.Ok? && (f.None? || f.value.name != "canvas") ==> r.value.wrapper == ""
    ensures f.Some? && f.value.name != "canvas" ==> forall s :: ArgGet(f.value, Named("fillchar"), Some("")) == Some(s) ==>
      r == Ok(if |s| > 1 then FillSpec([MultiFill], "<", "", Some(s)) else FillSpec(s, "<", "", None))
    ensures f.Some? && f.value.name == "canvas" ==> forall s :: ArgGet(f.value, Named("fillchar"), Some("")) == Some(s) ==>
      r == Ok(FillSpec(CanvasSplit(s).0, "<", CanvasSplit(s).1, None))
  {
    if f.None? then Ok(FillSpec("", "", "", None))
    else
      match ArgGet(f.value, Named("fillchar"), Some(""))
      case None => Err(NoneArgument("fillchar"))
      case Some(spec) =>
        var split := if f.value.name == "canvas" then CanvasSplit(spec) else (spec, "");
        if |split.0| > 1 then Ok(FillSpec([MultiFill], "<", split.1, Some(split.0)))
        else Ok(FillSpec(split.0, "<", split.1, None))
  }

  /** An alignment word or symbol and the symbol it selects. */
  predicate Names2(raw: Option<string>, word: string, symbol: string) {
    raw == Some(word) || raw == Some(symbol)
  }

  /** `raw_align`: the `align` argument (`<` by default) of `align`, `field` or `canvas`, else empty. */
  function RawAlign(alignFn: Option<Func>): Option<string> {
    if alignFn.Some? then ArgGet(alignFn.value, Named("align"), Some("<")) else Some("")
  }

  /**
   * The alignment: `left`, `right`, `center` (as functions or as the `align`
   * argument of `align`, `field`, `canvas`) in that priority, then `sign`;
   * otherwise the alignment the fill implied.
   */
  function AlignOf(current: string, alignFn: Option<Func>, left: Option<Func>, right: Option<Func>, center: Option<Func>): (r: string)
    ensures left.Some? || Names2(RawAlign(alignFn), "left", "<") ==> r == "<"
    ensures !(left.Some? || Names2(RawAlign(alignFn), "left", "<")) ==>
      && (right.Some? || Names2(RawAlign(alignFn), "right", ">") ==> r == ">")
      && (!(right.Some? || Names2(RawAlign(alignFn), "right", ">")) ==>
           && (center.Some? || Names2(RawAlign(alignFn), "center", "^") ==> r == "^")
           && (!(center.Some? || Names2(RawAlign(alignFn), "center", "^")) ==>
                r == if Names2(RawAlign(alignFn), "sign", "=") then "=" else current))
    ensures r == current || r == "<" || r == ">" || r == "^" || r == "="
    ensures alignFn.None? && left.None? && right.None? && center.None? ==> r == current
  {
    var raw := RawAlign(alignFn);
    if left.Some? || Names2(raw, "left", "<") then "<"
    else if right.Some? || Names2(raw, "right", ">") then ">"
    else if center.Some? || Names2(raw, "center", "^") then "^"
    else if Names2(raw, "sign", "=") then "="
    else current
  }

  /** The sign field from `sign`: its argument, `+` when absent, None or empty. */
  function SignOf(f: Option<Func>): (r: string)
    ensures f.None? <==> r == ""
    ensures f.Some? ==> forall s :: ArgGet(f.value, Pos(0), Some("+")) == Some(s) && s != [] ==> r == s
    ensures f.Some? && (ArgGet(f.value, Pos(0), Some("+")) == None || ArgGet(f.value, Pos(0), Some("+")) == Some("")) ==> r == "+"
  {
    if f.None? then "" else OrDefault(ArgGet(f.value, Pos(0), Some("+")), "+")
  }

  /** The precision field from `precision` or `float`: `.` and the `prec` argument, if any. */
  function PrecisionOf(f: Option<Func>): (r: string)
    ensures r == [] || (|r| >= 2 && r[0] == '.')
    ensures f.None? ==> r == []
    ensures f.Some? ==> forall p :: ArgGet(f.value, Named("prec"), Some("")) == Some(p) && p != [] ==> r == "." + p
    ensures f.Some? && (ArgGet(f.value, Named("prec"), Some("")) == None || ArgGet(f.value, Named("prec"), Some("")) == Some("")) ==> r == ""
  {
    if f.None? then ""
    else
      var aux := ArgGet(f.value, Named("prec"), Some(""));
      if aux.Some? && aux.value != [] then "." + aux.value else ""
  }

  /** The type functions in the order `get_func` tries them, each with its type letter. */
  const PtypeTable: seq<(string, string)> := [
    ("string", ""), ("bin", "b"), ("rawbin", "b"), ("char", "c"), ("decimal", "d"),
    ("octal", "o"), ("rawoctal", "o"), ("hex", "x"), ("Hex", "X"), ("rawhex", "x"),
    ("rawHex", "X"), ("number", "n"), ("exp", "e"), ("Exp", "E"), ("float", "f"),
    ("Float", "F"), ("general", "g"), ("General", "G"), ("percentage", "%")]

  function TypeNames(): (r: seq<string>)
    ensures |r| == |PtypeTable| && forall i :: 0 <= i < |r| ==> r[i] == PtypeTable[i].0
  {
    seq(|PtypeTable|, i requires 0 <= i < |PtypeTable| => PtypeTable[i].0)
  }

  /** The type letter of the first table entry called `name`. */
  function TypeLetter(table: seq<(string, string)>, name: string): (r: Option<string>)
    ensures r.Some? <==> exists i :: 0 <= i < |table| && table[i].0 == name
    ensures r.Some? ==> (name, r.value) in table
    decreases |table|
  {
    if table == [] then None
    else if table[0].0 == name then Some(table[0].1)
    else
      var r := TypeLetter(table[1..], name);
      if r.Some? then
        assert (name, r.value) in table[1..];
        r
      else
        assert forall i :: 1 <= i < |table| ==> table[i] == table[1..][i - 1];
        r
  }

  /** Every type function's name has an entry in the table. */
  lemma TypeNameHasLetter(name: string)
    ensures name in TypeNames() ==> TypeLetter(PtypeTable, name).Some?
  {
    if name in TypeNames() {
      var i :| 0 <= i < |TypeNames()| && TypeNames()[i] == name;
      assert PtypeTable[i].0 == name;
    }
  }

  /** The type field and the alternate-form flag `#` (prefixed binary, octal and hexadecimal). */
  function TypeOf(f: Option<Func>): (r: (string, string))
    ensures f.None? ==> r == ("", "")
    ensures f.Some? && f.value.name in TypeNames() ==> (f.value.name, r.0) in PtypeTable
    ensures r.1 == "#" <==> f.Some? && f.value.name in ["bin", "octal", "hex", "Hex"]
    ensures r.1 == "" || r.1 == "#"
  {
    if f.None? then ("", "")
    else
      var letter := TypeLetter(PtypeTable, f.value.name);
      TypeNameHasLetter(f.value.name);
      (OrDefault(letter, ""), if f.value.name in ["bin", "octal", "hex", "Hex"] then "#" else "")
  }

  // ---------------------------------------------------------------- pre-formatting

  /** The value and the fields still to be applied after each pre-formatting step. */
  datatype Staged = Staged(value: Value, alter: string, precision: string, ptype: string)

  /** The three `replace` calls of the separator step. */
  function SwapSteps(s: string, comma: string, decsep: string): string {
    Replace(Replace(Replace(s, ",", [Misc]), ".", decsep), [Misc], comma)
  }

  /** Every `,` becomes `comma` and every `.` becomes `decsep`, at the same time. */
  function Swapped(s: string, comma: string, decsep: string): string
    decreases |s|
  {
    if s == [] then []
    else (if s[0] == ',' then comma else if s[0] == '.' then decsep else [s[0]]) + Swapped(s[1..], comma, decsep)
  }

  /**
   * The separator step is a simultaneous swap, as long as the sentinel occurs
   * neither in the rendered text nor in the decimal separator.
   */
  lemma {:induction false} SeparatorSwap(s: string, comma: string, decsep: string)
    requires Misc !in s && Misc !in decsep
    ensures SwapSteps(s, comma, decsep) == Swapped(s, comma, decsep)
  {
    ReplaceOneChar(s, ',', [Misc]);
    ReplaceOneChar(MapChar(s, ',', [Misc]), '.', decsep);
    ReplaceOneChar(MapChar(MapChar(s, ',', [Misc]), '.', decsep), Misc, comma);
    SwapChain(s, comma, decsep);
  }

  lemma {:induction false} SwapChain(s: string, comma: string, decsep: string)
    requires Misc !in s && Misc !in decsep
    ensures MapChar(MapChar(MapChar(s, ',', [Misc]), '.', decsep), Misc, comma) == Swapped(s, comma, decsep)
    decreases |s|
  {
    if s != [] {
      SwapChain(s[1..], comma, decsep);
      var x := s[0];
      var a := MapChar(s[1..], ',', [Misc]);
      var head := if x == ',' then [Misc] else [x];
      assert MapChar(s, ',', [Misc]) == head + a;
      MapCharConcat(head, a, '.', decsep);
      var head2 := if x == '.' then decsep else head;
      assert MapChar(head, '.', decsep) == head2 by {
        assert head[1..] == [];
      }
      var b := MapChar(a, '.', decsep);
      MapCharConcat(head2, b, Misc, comma);
      if x == ',' {
        assert head2 == [Misc];
        assert MapChar(head2, Misc, comma) == comma by { assert head2[1..] == []; }
      } else if x == '.' {
        MapCharAbsent(decsep, Misc, comma);
      } else {
        assert head2 == [x];
        assert MapChar(head2, Misc, comma) == [x] by { assert head2[1..] == []; }
      }
    }
  }

  /**
   * `milesep` and `floatsep`: when either is present, the value is rendered
   * with `,` grouping and the separators swapped; the fields used are cleared.
   */
  function SeparatorsOf(st: Staged, mile: Option<Func>, floatsep: Option<Func>, render: Render): (r: Staged)
    ensures mile.None? && floatsep.None? ==> r == st
    ensures mile.Some? || floatsep.Some? ==> r.value.Text? && r.alter == r.precision == r.ptype == ""
  {
    var comma := if mile.Some? then OrDefault(ArgGet(mile.value, Pos(0), Some(",")), ",") else "";
    var decsep := if floatsep.Some? then OrDefault(ArgGet(floatsep.value, Pos(0), Some(".")), ".") else "";
    if comma != [] || decsep != [] then
      var comma' := if comma != [] then comma else ",";
      var decsep' := if decsep != [] then decsep else ".";
      var pre := render(st.value, st.alter + "," + st.precision + st.ptype);
      Staged(Text(SwapSteps(pre, comma', decsep')), "", "", "")
    else st
  }

  /** `pre[:limit - len(stop)] + stop` when a stop text is given, else `pre[:limit]`. */
  function TrimText(pre: string, limit: int, stop: Option<string>): (r: string)
    ensures stop.Some? && stop.value != [] ==>
      && |r| >= |stop.value| && r[|r| - |stop.value|..] == stop.value
      && IsPrefix(r[..|r| - |stop.value|], pre) && |r| - |stop.value| == SliceLength(|pre|, limit - |stop.value|)
    ensures stop.None? || stop.value == [] ==> IsPrefix(r, pre) && |r| == SliceLength(|pre|, limit)
  {
    if stop.Some? && stop.value != [] then
      var r := PyPrefix(pre, limit - |stop.value|) + stop.value;
      assert r[..|r| - |stop.value|] == PyPrefix(pre, limit - |stop.value|);
      r
    else PyPrefix(pre, limit)
  }

  /** A trimmed text is never longer than the limit, stop text included, when the stop fits. */
  lemma TrimBound(pre: string, limit: int, stop: Option<string>)
    requires stop.Some? ==> |stop.value| <= limit
    requires limit >= 0
    ensures |TrimText(pre, limit, stop)| <= limit
  {
  }

  /** Nothing is cut from a text that fits, yet the stop text is still appended. */
  lemma TrimAppendsStop(pre: string, limit: int, stop: string)
    requires stop != [] && |pre| + |stop| <= limit
    ensures TrimText(pre, limit, Some(stop)) == pre + stop
  {
    assert PyPrefix(pre, limit - |stop|) == pre;
  }

  /**
   * `trim`: the value rendered with the pending fields, cut to the limit (100
   * by default) with the stop text appended; the pending fields are cleared.
   */
  function TrimOf(st: Staged, f: Option<Func>, render: Render): (r: Result<Staged, Error>)
    ensures f.None? ==> r == Ok(st)
    ensures r.Ok? && f.Some? ==> r.value.value.Text? && r.value.alter == r.value.precision == r.value.ptype == ""
    ensures f.Some? && ArgGet(f.value, Pos(0), Some("100")).None? ==> r == Err(NoneArgument("limit"))
  {
    if f.None? then Ok(st)
    else
      match ArgGet(f.value, Pos(0), Some("100"))
      case None => Err(NoneArgument("limit"))
      case Some(text) =>
        match ParseInt(text)
        case None => Err(InvalidInteger(text))
        case Some(limit) =>
          var stop := ArgGet(f.value, Pos(1), None);
          var pre := render(st.value, st.alter + st.precision + st.ptype);
          Ok(Staged(Text(TrimText(pre, limit, stop)), "", "", ""))
  }

  /**
   * `width`, `zwidth`, `field`, `canvas`: the `size` argument, which must be
   * present and not None; `+k` is relative to the length of the value rendered
   * with the pending fields. Gives the width and the zero flag.
   */
  function WidthOf(st: Staged, f: Option<Func>, render: Render): (r: Result<(string, string), Error>)
    ensures f.None? ==> r == Ok(("", ""))
    ensures f.Some? && Named("size") !in f.value.args ==> r == Err(MissingKey("size"))
    ensures r.Ok? && f.Some? ==> (r.value.1 == "0" <==> f.value.name == "zwidth")
    ensures r.Ok? && f.Some? ==> Named("size") in f.value.args && f.value.args[Named("size")].Some?
    ensures
      (r.Ok? && f.Some? && Named("size") in f.value.args && f.value.args[Named("size")].Some? &&
       !IsPrefix("+", f.value.args[Named("size")].value)) ==>
      r.value.0 == f.value.args[Named("size")].value
  {
    if f.None? then Ok(("", ""))
    else if Named("size") !in f.value.args then Err(MissingKey("size"))
    else
      match f.value.args[Named("size")]
      case None => Err(NoneArgument("size"))
      case Some(w) =>
        var zero := if f.value.name == "zwidth" then "0" else "";
        if IsPrefix("+", w) then
          match ParseInt(w[1..])
          case None => Err(InvalidInteger(w[1..]))
          case Some(k) => Ok((IntToString(k + |render(st.value, st.alter + st.precision + st.ptype)|), zero))
        else Ok((w, zero))
  }

  /** A relative width `+k` reads back as `k` plus the length of the pre-rendered value. */
  lemma RelativeWidth(st: Staged, f: Option<Func>, render: Render, k: int)
    requires f.Some? && Named("size") in f.value.args
    requires f.value.args[Named("size")] == Some("+" + IntToString(k))
    ensures WidthOf(st, f, render).Ok?
    ensures ParseInt(WidthOf(st, f, render).value.0) == Some(k + |render(st.value, st.alter + st.precision + st.ptype)|)
  {
    var w := "+" + IntToString(k);
    assert w[1..] == IntToString(k);
    IntToStringRoundTrip(k);
    IntToStringRoundTrip(k + |render(st.value, st.alter + st.precision + st.ptype)|);
  }

  /** `fill+align+sign+alter+zero+width+comma+precision+ptype` */
  function PythonSpecs(fill: string, align: string, sign: string, alter: string, zero: string,
                       width: string, comma: string, precision: string, ptype: string): string
  {
    fill + align + sign + alter + zero + width + comma + precision + ptype
  }

  // ---------------------------------------------------------------- post-processing

  /** `s.replace(c, x, 1)` skips a prefix without `c`. */
  lemma {:induction false} ReplaceFirstSkip(u: string, t: string, c: char, x: string)
    requires c !in u
    ensures ReplaceFirst(u + t, [c], x) == u + ReplaceFirst(t, [c], x)
    decreases |u|
  {
    if u == [] {
      assert u + t == t;
    } else {
      var w := u + t;
      assert w[0] == u[0] && u[0] != c;
      assert !IsPrefix([c], w) by {
        assert [c][0] == c;
      }
      assert ReplaceFirst(w, [c], x) == [w[0]] + ReplaceFirst(w[1..], [c], x);
      assert c !in u[1..] by {
        forall k | 0 <= k < |u[1..]| ensures u[1..][k] != c {
          assert u[1..][k] == u[k + 1];
        }
      }
      ReplaceFirstSkip(u[1..], t, c, x);
      assert w[1..] == u[1..] + t;
      assert u == [u[0]] + u[1..];
    }
  }

  /**
   * The replacement loops: steps `from` to `to - 1`, each replacing the first
   * `c` by the character `fill[i % modulus]` of its step `i`.
   */
  function FillSteps(s: string, c: char, fill: string, modulus: nat, from: nat, to: nat): string
    requires 0 < modulus <= |fill|
    decreases (to as int) - (from as int)
  {
    if from >= to then s
    else FillSteps(ReplaceFirst(s, [c], [fill[from % modulus]]), c, fill, modulus, from + 1, to)
  }

  /** Every `c`, left to right, replaced by the next character of `fill[..modulus]` in cyclic order from `i`. */
  function Cycled(s: string, c: char, fill: string, modulus: nat, i: nat): (r: string)
    requires 0 < modulus <= |fill|
    ensures |r| == |s|
    decreases |s|
  {
    if s == [] then []
    else if s[0] == c then [fill[i % modulus]] + Cycled(s[1..], c, fill, modulus, i + 1)
    else [s[0]] + Cycled(s[1..], c, fill, modulus, i)
  }

  /** Position by position: the k-th character of a cycled text. */
  lemma {:induction false} CycledAt(s: string, c: char, fill: string, modulus: nat, i: nat, k: nat)
    requires 0 < modulus <= |fill| && k < |s|
    ensures s[k] != c ==> Cycled(s, c, fill, modulus, i)[k] == s[k]
    ensures s[k] == c ==> Cycled(s, c, fill, modulus, i)[k] == fill[(i + Count(s[..k], c)) % modulus]
    decreases k
  {
    if k > 0 {
      var i' := if s[0] == c then i + 1 else i;
      CycledAt(s[1..], c, fill, modulus, i', k - 1);
      assert s[..k][1..] == s[1..][..k - 1];
      assert Count(s[..k], c) == (if s[0] == c then 1 else 0) + Count(s[1..][..k - 1], c);
    } else {
      assert s[..0] == [];
    }
  }

  /** Steps on a text whose prefix has no `c` leave the prefix alone. */
  lemma {:induction false} FillStepsSkip(u: string, t: string, c: char, fill: string, modulus: nat, from: nat, to: nat)
    requires 0 < modulus <= |fill| && c !in u
    ensures FillSteps(u + t, c, fill, modulus, from, to) == u + FillSteps(t, c, fill, modulus, from, to)
    decreases (to as int) - (from as int)
  {
    if from < to {
      var x := [fill[from % modulus]];
      ReplaceFirstSkip(u, t, c, x);
      FillStepsSkip(u, ReplaceFirst(t, [c], x), c, fill, modulus, from + 1, to);
    }
  }

  /**
   * Running one step per occurrence of `c` in `u`, on a text `u + t`, cycles
   * the fill through the occurrences in `u` and leaves `t` alone, as long as
   * the fill itself never brings `c` back.
   */
  lemma {:induction false} FillStepsCycled(u: string, t: string, c: char, fill: string, modulus: nat, i: nat)
    requires 0 < modulus <= |fill| && c !in fill
    ensures FillSteps(u + t, c, fill, modulus, i, i + Count(u, c)) == Cycled(u, c, fill, modulus, i) + t
    decreases |u|
  {
    if u == [] {
      assert u + t == t;
    } else if u[0] == c {
      FillStepsCycled(u[1..], t, c, fill, modulus, i + 1);
      CycledHit(u, t, c, fill, modulus, i);
    } else {
      FillStepsCycled(u[1..], t, c, fill, modulus, i);
      CycledMiss(u, t, c, fill, modulus, i);
    }
  }

  /** The step of `FillStepsCycled` for a leading `c`. */
  lemma CycledHit(u: string, t: string, c: char, fill: string, modulus: nat, i: nat)
    requires 0 < modulus <= |fill| && c !in fill && u != [] && u[0] == c
    requires FillSteps(u[1..] + t, c, fill, modulus, i + 1, i + 1 + Count(u[1..], c))
      == Cycled(u[1..], c, fill, modulus, i + 1) + t
    ensures FillSteps(u + t, c, fill, modulus, i, i + Count(u, c)) == Cycled(u, c, fill, modulus, i) + t
  {
    var rest := u[1..];
    var x := [fill[i % modulus]];
    var n := Count(rest, c);
    assert x[0] in fill;
    assert u + t == [c] + (rest + t);
    assert ReplaceFirst(u + t, [c], x) == x + (rest + t) by {
      assert IsPrefix([c], u + t);
      assert (u + t)[1..] == rest + t;
    }
    calc {
      FillSteps(u + t, c, fill, modulus, i, i + 1 + n);
      FillSteps(x + (rest + t), c, fill, modulus, i + 1, i + 1 + n);
      { FillStepsSkip(x, rest + t, c, fill, modulus, i + 1, i + 1 + n); }
      x + FillSteps(rest + t, c, fill, modulus, i + 1, i + 1 + n);
      x + (Cycled(rest, c, fill, modulus, i + 1) + t);
    }
  }

  /** The step of `FillStepsCycled` for a leading character other than `c`. */
  lemma CycledMiss(u: string, t: string, c: char, fill: string, modulus: nat, i: nat)
    requires 0 < modulus <= |fill| && c !in fill && u != [] && u[0] != c
    requires FillSteps(u[1..] + t, c, fill, modulus, i, i + Count(u[1..], c))
      == Cycled(u[1..], c, fill, modulus, i) + t
    ensures FillSteps(u + t, c, fill, modulus, i, i + Count(u, c)) == Cycled(u, c, fill, modulus, i) + t
  {
    var rest := u[1..];
    assert u + t == [u[0]] + (rest + t);
    FillStepsSkip([u[0]], rest + t, c, fill, modulus, i, i + Count(rest, c));
  }

  /** A cycled text holds no `c` any more when the fill has none. */
  lemma {:induction false} CycledClears(s: string, c: char, fill: string, modulus: nat, i: nat)
    requires 0 < modulus <= |fill| && c !in fill
    ensures c !in Cycled(s, c, fill, modulus, i)
    decreases |s|
  {
    if s != [] {
      var i' := if s[0] == c then i + 1 else i;
      CycledClears(s[1..], c, fill, modulus, i');
      assert fill[i % modulus] in fill;
    }
  }

  /** A run of `c` only, cycled from `i`: position `k` gets `fill[(i + k) % modulus]`. */
  lemma {:induction false} CycledRun(s: string, c: char, fill: string, modulus: nat, i: nat)
    requires 0 < modulus <= |fill|
    requires forall k :: 0 <= k < |s| ==> s[k] == c
    ensures forall k :: 0 <= k < |s| ==> Cycled(s, c, fill, modulus, i)[k] == fill[(i + k) % modulus]
    decreases |s|
  {
    if s != [] {
      CycledRun(s[1..], c, fill, modulus, i + 1);
      var r := Cycled(s, c, fill, modulus, i);
      assert r == [fill[i % modulus]] + Cycled(s[1..], c, fill, modulus, i + 1);
      forall k | 0 <= k < |s|
        ensures r[k] == fill[(i + k) % modulus]
      {
        if k > 0 {
          assert r[k] == Cycled(s[1..], c, fill, modulus, i + 1)[k - 1];
          assert i + 1 + (k - 1) == i + k;
        }
      }
    }
  }

  /**
   * Multi-character fill: each sentinel of the rendered text, left to right,
   * becomes the next character of the fill, cyclically. A plain fill leaves the
   * text alone; with no fill bound and a sentinel present the loop fails.
   */
  function MultiFillStage(conversion: string, fill: string, multifill: Option<string>): (r: Result<string, Error>)
    ensures fill != [MultiFill] || Count(conversion, MultiFill) == 0 ==> r == Ok(conversion)
    ensures fill == [MultiFill] && Count(conversion, MultiFill) > 0 && multifill.None? ==> r == Err(UnboundMultifill)
    ensures r.Err? ==> fill == [MultiFill] && Count(conversion, MultiFill) > 0 && (multifill.None? || multifill.value == [])
  {
    var total := Count(conversion, MultiFill);
    if fill != [MultiFill] || total == 0 then Ok(conversion)
    else if multifill.None? then Err(UnboundMultifill)
    else if multifill.value == [] then Err(ZeroDivision)
    else Ok(FillSteps(conversion, MultiFill, multifill.value, |multifill.value|, 0, total))
  }

  /** With a fill free of the sentinel, multi-character fill is exactly the cyclic fill, and no sentinel is left. */
  lemma MultiFillCycles(conversion: string, multifill: string)
    requires multifill != [] && MultiFill !in multifill
    ensures MultiFillStage(conversion, [MultiFill], Some(multifill)) == Ok(Cycled(conversion, MultiFill, multifill, |multifill|, 0))
    ensures MultiFill !in MultiFillStage(conversion, [MultiFill], Some(multifill)).value
  {
    var total := Count(conversion, MultiFill);
    var cycled := Cycled(conversion, MultiFill, multifill, |multifill|, 0);
    CycledClears(conversion, MultiFill, multifill, |multifill|, 0);
    if total == 0 {
      CycledNoTarget(conversion, MultiFill, multifill, |multifill|, 0);
    } else {
      FillStepsCycled(conversion, [], MultiFill, multifill, |multifill|, 0);
      assert conversion + [] == conversion;
      assert FillSteps(conversion, MultiFill, multifill, |multifill|, 0, total) == cycled + [];
      assert cycled + [] == cycled;
    }
  }

  /** Cycling a text without any `c` changes nothing. */
  lemma {:induction false} CycledNoTarget(s: string, c: char, fill: string, modulus: nat, i: nat)
    requires 0 < modulus <= |fill| && Count(s, c) == 0
    ensures Cycled(s, c, fill, modulus, i) == s
    decreases |s|
  {
    if s != [] {
      CycledNoTarget(s[1..], c, fill, modulus, i);
    }
  }

  /** The number of `c` at the head of `s` (the `before` loop of the canvas fill). */
  function LeadingRun(s: string, c: char): (n: nat)
    ensures n <= |s| && (forall k :: 0 <= k < n ==> s[k] == c) && (n < |s| ==> s[n] != c)
    decreases |s|
  {
    if s != [] && s[0] == c then 1 + LeadingRun(s[1..], c) else 0
  }

  /** The head run counts among the occurrences: the rest of them come after it. */
  lemma LeadingRunCount(s: string, c: char)
    ensures Count(s, c) == LeadingRun(s, c) + Count(s[LeadingRun(s, c)..], c)
  {
    var n := LeadingRun(s, c);
    assert s == s[..n] + s[n..];
    CountConcat(s[..n], s[n..], c);
    RunCount(s[..n], c);
  }

  lemma {:induction false} RunCount(s: string, c: char)
    requires forall k :: 0 <= k < |s| ==> s[k] == c
    ensures Count(s, c) == |s|
    decreases |s|
  {
    if s != [] {
      RunCount(s[1..], c);
    }
  }

  /**
   * Canvas fill: the sentinels at the head of the rendered text are replaced,
   * one by one, by the opening half of the wrapper taken cyclically, and the
   * others by the closing half; an empty wrapper with a sentinel present fails.
   */
  function CanvasStage(conversion: string, fill: string, wrapper: string): (r: Result<string, Error>)
    ensures fill != [CanvasFill] || Count(conversion, CanvasFill) == 0 ==> r == Ok(conversion)
    ensures r.Err? <==> fill == [CanvasFill] && Count(conversion, CanvasFill) > 0 && |wrapper| < 2
    ensures r.Err? ==> r.error == ZeroDivision
  {
    var total := Count(conversion, CanvasFill);
    var n := |wrapper| / 2;
    if fill != [CanvasFill] || total == 0 then Ok(conversion)
    else if n == 0 then Err(ZeroDivision)
    else
      var before := LeadingRun(conversion, CanvasFill);
      LeadingRunCount(conversion, CanvasFill);
      var headDone := FillSteps(conversion, CanvasFill, wrapper[..n], n, 0, before);
      Ok(FillSteps(headDone, CanvasFill, wrapper[n..], n, 0, total - before))
  }

  /** With a wrapper free of the sentinel, the canvas is the head run cycled through the opening half and the rest through the closing half. */
  lemma CanvasCycles(conversion: string, wrapper: string)
    requires |wrapper| >= 2 && CanvasFill !in wrapper
    ensures var n := |wrapper| / 2;
      var before := LeadingRun(conversion, CanvasFill);
      && CanvasStage(conversion, [CanvasFill], wrapper).Ok?
      && CanvasStage(conversion, [CanvasFill], wrapper).value
         == Cycled(conversion[..before], CanvasFill, wrapper[..n], n, 0)
            + Cycled(conversion[before..], CanvasFill, wrapper[n..], n, 0)
  {
    var n := |wrapper| / 2;
    HalvesAvoid(wrapper, CanvasFill);
    var before := LeadingRun(conversion, CanvasFill);
    var total := Count(conversion, CanvasFill);
    LeadingRunCount(conversion, CanvasFill);
    if total == 0 {
      assert before == 0;
      assert conversion[..before] == [] && conversion[before..] == conversion;
      CycledNoTarget(conversion, CanvasFill, wrapper[n..], n, 0);
      assert CanvasStage(conversion, [CanvasFill], wrapper) == Ok(conversion);
    } else {
      var headDone := FillSteps(conversion, CanvasFill, wrapper[..n], n, 0, before);
      assert CanvasStage(conversion, [CanvasFill], wrapper)
        == Ok(FillSteps(headDone, CanvasFill, wrapper[n..], n, 0, total - before));
      CanvasSteps(conversion, wrapper[..n], wrapper[n..], n);
    }
  }

  /** The two replacement loops of the canvas fill, for halves free of the sentinel. */
  lemma CanvasSteps(conversion: string, openHalf: string, closeHalf: string, n: nat)
    requires 0 < n <= |openHalf| && n <= |closeHalf|
    requires CanvasFill !in openHalf && CanvasFill !in closeHalf
    ensures var before := LeadingRun(conversion, CanvasFill);
      var total := Count(conversion, CanvasFill);
      && before <= total
      && FillSteps(FillSteps(conversion, CanvasFill, openHalf, n, 0, before), CanvasFill, closeHalf, n, 0, total - before)
         == Cycled(conversion[..before], CanvasFill, openHalf, n, 0) + Cycled(conversion[before..], CanvasFill, closeHalf, n, 0)
  {
    var before := LeadingRun(conversion, CanvasFill);
    var head, tail := conversion[..before], conversion[before..];
    LeadingRunCount(conversion, CanvasFill);
    HeadLoop(conversion, openHalf, n);
    var headDone := Cycled(head, CanvasFill, openHalf, n, 0);
    CycledClears(head, CanvasFill, openHalf, n, 0);
    TailLoop(headDone, tail, closeHalf, n);
  }

  /** The `before` loop: the head run cycles through the opening half and the rest is left alone. */
  lemma HeadLoop(conversion: string, openHalf: string, n: nat)
    requires 0 < n <= |openHalf| && CanvasFill !in openHalf
    ensures var before := LeadingRun(conversion, CanvasFill);
      FillSteps(conversion, CanvasFill, openHalf, n, 0, before)
        == Cycled(conversion[..before], CanvasFill, openHalf, n, 0) + conversion[before..]
  {
    var before := LeadingRun(conversion, CanvasFill);
    var head, tail := conversion[..before], conversion[before..];
    assert head + tail == conversion;
    assert forall k :: 0 <= k < |head| ==> head[k] == conversion[k];
    RunCount(head, CanvasFill);
    FillStepsCycled(head, tail, CanvasFill, openHalf, n, 0);
  }

  /** The `after` loop: past a text without sentinels, the rest cycles through the closing half. */
  lemma TailLoop(done: string, tail: string, closeHalf: string, n: nat)
    requires 0 < n <= |closeHalf| && CanvasFill !in closeHalf && CanvasFill !in done
    ensures FillSteps(done + tail, CanvasFill, closeHalf, n, 0, Count(tail, CanvasFill))
      == done + Cycled(tail, CanvasFill, closeHalf, n, 0)
  {
    var k := Count(tail, CanvasFill);
    FillStepsSkip(done, tail, CanvasFill, closeHalf, n, 0, k);
    FillStepsCycled(tail, [], CanvasFill, closeHalf, n, 0);
    assert tail + [] == tail;
    assert Cycled(tail, CanvasFill, closeHalf, n, 0) + [] == Cycled(tail, CanvasFill, closeHalf, n, 0);
  }

  /** Neither half of a text holds a character the text does not. */
  lemma HalvesAvoid(wrapper: string, c: char)
    requires c !in wrapper
    ensures c !in wrapper[..|wrapper| / 2] && c !in wrapper[|wrapper| / 2..]
  {
    var n := |wrapper| / 2;
    assert forall k :: 0 <= k < n ==> wrapper[..n][k] == wrapper[k];
    assert forall k :: 0 <= k < |wrapper| - n ==> wrapper[n..][k] == wrapper[n + k];
  }

  /**
   * The k-th character of the head run becomes `open[k % n]`, the opening half
   * taken cyclically, and no sentinel remains anywhere.
   */
  lemma CanvasShape(conversion: string, wrapper: string)
    requires |wrapper| >= 2 && CanvasFill !in wrapper
    ensures CanvasStage(conversion, [CanvasFill], wrapper).Ok?
    ensures |CanvasStage(conversion, [CanvasFill], wrapper).value| == |conversion|
    ensures forall k :: 0 <= k < LeadingRun(conversion, CanvasFill) ==>
      CanvasStage(conversion, [CanvasFill], wrapper).value[k] == wrapper[k % (|wrapper| / 2)]
    ensures CanvasFill !in CanvasStage(conversion, [CanvasFill], wrapper).value
  {
    CanvasCycles(conversion, wrapper);
    var n := |wrapper| / 2;
    var openHalf, closeHalf := wrapper[..n], wrapper[n..];
    HalvesAvoid(wrapper, CanvasFill);
    var before := LeadingRun(conversion, CanvasFill);
    var head, tail := conversion[..before], conversion[before..];
    var headDone := Cycled(head, CanvasFill, openHalf, n, 0);
    var tailDone := Cycled(tail, CanvasFill, closeHalf, n, 0);
    var r := CanvasStage(conversion, [CanvasFill], wrapper).value;
    assert r == headDone + tailDone;
    CycledClears(head, CanvasFill, openHalf, n, 0);
    CycledClears(tail, CanvasFill, closeHalf, n, 0);
    CharsOfConcat(headDone, tailDone);
    CycledRun(head, CanvasFill, openHalf, n, 0);
    forall k | 0 <= k < before
      ensures r[k] == wrapper[k % n]
    {
      assert r[k] == headDone[k];
      assert headDone[k] == openHalf[k % n];
    }
  }

  /** A character absent from two texts is absent from their concatenation. */
  lemma CharsOfConcat(a: string, b: string)
    ensures forall x :: x in a + b <==> x in a || x in b
  {
    forall x
      ensures x in a + b <==> x in a || x in b
    {
      if x in a + b {
        var k :| 0 <= k < |a + b| && (a + b)[k] == x;
        if k >= |a| {
          assert b[k - |a|] == x;
        }
      }
      if x in b {
        var k :| 0 <= k < |b| && b[k] == x;
        assert (a + b)[|a| + k] == x;
      }
    }
  }

  /** The first half of the wrapper before the text, the second half after it. */
  function Wrap(conversion: string, wrapper: string): (r: string)
    ensures |r| == |conversion| + |wrapper|
    ensures r[|wrapper| / 2..|wrapper| / 2 + |conversion|] == conversion
    ensures r[..|wrapper| / 2] + r[|wrapper| / 2 + |conversion|..] == wrapper
  {
    var h := |wrapper| / 2;
    var r := wrapper[..h] + conversion + wrapper[h..];
    assert r[..h] == wrapper[..h] && r[h + |conversion|..] == wrapper[h..];
    assert wrapper[..h] + wrapper[h..] == wrapper;
    r
  }

  /**
   * Wrapping: with the canvas wrapper, or else with the argument of `wrap`
   * (none by default); a `wrap` argument given as None fails.
   */
  function WrapStage(conversion: string, wrapper: string, wrapFn: Option<Func>): (r: Result<string, Error>)
    ensures wrapper != [] ==> r == Ok(Wrap(conversion, wrapper))
    ensures wrapper == [] && wrapFn.None? ==> r == Ok(conversion)
    ensures wrapper == [] && wrapFn.Some? ==> forall w :: ArgGet(wrapFn.value, Pos(0), Some("")) == Some(w) ==>
      r == Ok(Wrap(conversion, w))
    ensures r.Err? <==> wrapper == [] && wrapFn.Some? && ArgGet(wrapFn.value, Pos(0), Some("")).None?
  {
    if wrapper != [] then Ok(Wrap(conversion, wrapper))
    else if wrapFn.None? then Ok(conversion)
    else
      match ArgGet(wrapFn.value, Pos(0), Some(""))
      case None => Err(NoneArgument("wrapper"))
      case Some(w) => Ok(Wrap(conversion, w))
  }

  // ---------------------------------------------------------------- the whole conversion

  /**
   * `convert` from the evaluated value on: the fields each function sets, the
   * pre-formatting steps, the rendering with the assembled specification and
   * the post-processing, failing with the first error in that order.
   */
  function Conversion(v: Value, fns: seq<Func>, render: Render): (r: Result<string, Error>)
  {
    var fs :- FillOf(FindFunc(fns, ["fill", "field", "canvas"]));
    var align := AlignOf(fs.align, FindFunc(fns, ["align", "field", "canvas"]),
                         FindFunc(fns, ["left"]), FindFunc(fns, ["right"]), FindFunc(fns, ["center"]));
    var sign := SignOf(FindFunc(fns, ["sign"]));
    var precision := PrecisionOf(FindFunc(fns, ["precision", "float"]));
    var typed := TypeOf(FindFunc(fns, TypeNames()));
    var separated := SeparatorsOf(Staged(v, typed.1, precision, typed.0),
                                  FindFunc(fns, ["milesep"]), FindFunc(fns, ["floatsep"]), render);
    var trimmed :- TrimOf(separated, FindFunc(fns, ["trim"]), render);
    var width :- WidthOf(trimmed, FindFunc(fns, ["width", "field", "canvas", "zwidth"]), render);
    var specs := PythonSpecs(fs.fill, align, sign, trimmed.alter, width.1, width.0, "", trimmed.precision, trimmed.ptype);
    var filled :- MultiFillStage(render(trimmed.value, specs), fs.fill, fs.multifill);
    var canvas :- CanvasStage(filled, fs.fill, fs.wrapper);
    WrapStage(canvas, fs.wrapper, FindFunc(fns, ["wrap"]))
  }

  /** Without functions, the value is rendered with the empty specification and nothing else happens. */
  lemma ConversionWithoutFunctions(v: Value, render: Render)
    ensures Conversion(v, [], render) == Ok(render(v, ""))
  {
    var none: Option<Func> := None;
    NothingFound(["fill", "field", "canvas"]);
    NothingFound(["align", "field", "canvas"]);
    NothingFound(["left"]);
    NothingFound(["right"]);
    NothingFound(["center"]);
    NothingFound(["sign"]);
    NothingFound(["precision", "float"]);
    NothingFound(TypeNames());
    NothingFound(["milesep"]);
    NothingFound(["floatsep"]);
    NothingFound(["trim"]);
    NothingFound(["width", "field", "canvas", "zwidth"]);
    NothingFound(["wrap"]);
    var st := Staged(v, "", "", "");
    assert FillOf(none) == Ok(FillSpec("", "", "", None));
    assert AlignOf("", none, none, none, none) == "";
    assert SignOf(none) == "" && PrecisionOf(none) == "" && TypeOf(none) == ("", "");
    assert SeparatorsOf(st, none, none, render) == st;
    assert TrimOf(st, none, render) == Ok(st);
    assert WidthOf(st, none, render) == Ok(("", ""));
    assert PythonSpecs("", "", "", "", "", "", "", "", "") == "";
    var out := render(v, "");
    assert MultiFillStage(out, "", None) == Ok(out);
    assert CanvasStage(out, "", "") == Ok(out);
    assert WrapStage(out, "", none) == Ok(out);
  }

  /** No name is found among no functions. */
  lemma {:induction false} NothingFound(names: seq<string>)
    ensures FindFunc([], names) == None
    decreases |names|
  {
    if names != [] {
      NothingFound(names[1..]);
    }
  }

  /**
   * One replacement loop: `count` times, the first `c` becomes the next
   * character of `fill[..modulus]`, cycling; the caller has already raised
   * `ZeroDivisionError` where the source's first `i % modulus` would.
   */
  method FillLoop(s: string, c: char, fill: string, modulus: nat, count: nat) returns (out: string)
    requires 0 < modulus <= |fill|
    ensures out == FillSteps(s, c, fill, modulus, 0, count)
  {
    out := s;
    for i := 0 to count
      invariant FillSteps(out, c, fill, modulus, i, count) == FillSteps(s, c, fill, modulus, 0, count)
    {
      out := ReplaceFirst(out, [c], [fill[i % modulus]]);
    }
  }

  /** The multi-character fill loop: one replacement per sentinel counted in the rendered text. */
  method FillMulti(conversion: string, multifill: string) returns (r: Result<string, Error>)
    ensures r == MultiFillStage(conversion, [MultiFill], Some(multifill))
  {
    var total := Count(conversion, MultiFill);
    if total > 0 && multifill == [] {
      return Err(ZeroDivision);
    }
    if total == 0 {
      return Ok(conversion);
    }
    var out := FillLoop(conversion, MultiFill, multifill, |multifill|, total);
    return Ok(out);
  }

  /** The loop counting the run of sentinels at the head of the rendered text. */
  method HeadRun(s: string, c: char) returns (before: nat)
    ensures before == LeadingRun(s, c)
  {
    before := 0;
    while before < |s| && s[before] == c
      invariant before <= |s|
      invariant forall k :: 0 <= k < before ==> s[k] == c
    {
      before := before + 1;
    }
  }

  /** The canvas fill loops: count the head run, then one replacement per sentinel, opening half first. */
  method FillCanvas(conversion: string, wrapper: string) returns (r: Result<string, Error>)
    ensures r == CanvasStage(conversion, [CanvasFill], wrapper)
  {
    var openHalf := wrapper[..|wrapper| / 2];
    var closeHalf := wrapper[|wrapper| / 2..];
    var n := |openHalf|;
    var total := Count(conversion, CanvasFill);
    var before := HeadRun(conversion, CanvasFill);
    LeadingRunCount(conversion, CanvasFill);
    var after := total - before;
    if total == 0 {
      return Ok(conversion);
    }
    if n == 0 {
      return Err(ZeroDivision);
    }
    var headDone := FillLoop(conversion, CanvasFill, openHalf, n, before);
    var out := FillLoop(headDone, CanvasFill, closeHalf, n, after);
    return Ok(out);
  }

  /** `convert`'s function lookups and steps, carried out as the loops and calls of the original. */
  method ConvertFields(v: Value, fns: seq<Func>, render: Render) returns (r: Result<string, Error>)
    ensures r == Conversion(v, fns, render)
  {
    var f := GetFunc(fns, ["fill", "field", "canvas"]);
    var fsr := FillOf(f);
    if fsr.Err? {
      return Err(fsr.error);
    }
    var fs := fsr.value;
    var alignFn := GetFunc(fns, ["align", "field", "canvas"]);
    var left := GetFunc(fns, ["left"]);
    var right := GetFunc(fns, ["right"]);
    var center := GetFunc(fns, ["center"]);
    var align := AlignOf(fs.align, alignFn, left, right, center);
    f := GetFunc(fns, ["sign"]);
    var sign := SignOf(f);
    f := GetFunc(fns, ["precision", "float"]);
    var precision := PrecisionOf(f);
    f := GetFunc(fns, TypeNames());
    var typed := TypeOf(f);
    var mile := GetFunc(fns, ["milesep"]);
    var floatsep := GetFunc(fns, ["floatsep"]);
    var staged := SeparatorsOf(Staged(v, typed.1, precision, typed.0), mile, floatsep, render);
    f := GetFunc(fns, ["trim"]);
    var trimmed := TrimOf(staged, f, render);
    if trimmed.Err? {
      return Err(trimmed.error);
    }
    staged := trimmed.value;
    f := GetFunc(fns, ["width", "field", "canvas", "zwidth"]);
    var width := WidthOf(staged, f, render);
    if width.Err? {
      return Err(width.error);
    }
    var specs := PythonSpecs(fs.fill, align, sign, staged.alter, width.value.1, width.value.0, "", staged.precision, staged.ptype);
    var conversion := render(staged.value, specs);
    if fs.fill == [MultiFill] && Count(conversion, MultiFill) > 0 {
      if fs.multifill.None? {
        return Err(UnboundMultifill);
      }
      var filled := FillMulti(conversion, fs.multifill.value);
      conversion := filled.value;
    }
    if fs.fill == [CanvasFill] {
      var filled := FillCanvas(conversion, fs.wrapper);
      if filled.Err? {
        return Err(filled.error);
      }
      conversion := filled.value;
    }
    f := GetFunc(fns, ["wrap"]);
    r := WrapStage(conversion, fs.wrapper, f);
  }
}
