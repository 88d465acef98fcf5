/**
 * The brace tokenizer: a string is split into the tokens written between
 * outermost `{` `}` pairs, recursively, giving a tree of tokens numbered by
 * generation (depth).  Tokens are listed by generation with `dict_join`, and a
 * token's text gets its children's conversions put back in place of their
 * `{...}` occurrences.
 */
module Tokenizer {
  import opened Wrappers
  import opened Errors
  import opened Strings

  // ---------------------------------------------------------------------------
  // `dict_join`, on dictionaries whose values are lists (joined with `+`)

  /** The value under `k`, or the empty list when `k` is absent. */
  function Get<K, V>(m: map<K, seq<V>>, k: K): seq<V> {
    if k in m then m[k] else []
  }

  /** `dict_join(a, b)`: every key once; a shared key gets `a`'s value followed by `b`'s. */
  function Join<K, V>(a: map<K, seq<V>>, b: map<K, seq<V>>): (j: map<K, seq<V>>)
    ensures j.Keys == a.Keys + b.Keys
    ensures forall k :: k in a && k in b ==> j[k] == a[k] + b[k]
    ensures forall k :: k in a && k !in b ==> j[k] == a[k]
    ensures forall k :: k !in a && k in b ==> j[k] == b[k]
  {
    JoinedFacts(a, b);
    Joined(a, b)
  }

  function Joined<K, V>(a: map<K, seq<V>>, b: map<K, seq<V>>): map<K, seq<V>> {
    map k | k in a.Keys + b.Keys :: Get(a, k) + Get(b, k)
  }

  lemma JoinedFacts<K, V>(a: map<K, seq<V>>, b: map<K, seq<V>>)
    ensures Joined(a, b).Keys == a.Keys + b.Keys
    ensures forall k :: k in a && k in b ==> Joined(a, b)[k] == a[k] + b[k]
    ensures forall k :: k in a && k !in b ==> Joined(a, b)[k] == a[k]
    ensures forall k :: k !in a && k in b ==> Joined(a, b)[k] == b[k]
  {
    var j := Joined(a, b);
    assert j.Keys == a.Keys + b.Keys;
    forall k | k in a && k !in b
      ensures j[k] == a[k]
    {
      assert j[k] == a[k] + [];
    }
  }

  /** Joining the dictionaries of `ds` from left to right. */
  function JoinAll<K, V>(ds: seq<map<K, seq<V>>>): map<K, seq<V>>
    decreases |ds|
  {
    if ds == [] then map[] else Join(JoinAll(ds[..|ds| - 1]), ds[|ds| - 1])
  }

  /** The values under `k` in `ds`, concatenated in argument order. */
  function Gathered<K, V>(ds: seq<map<K, seq<V>>>, k: K): seq<V>
    decreases |ds|
  {
    if ds == [] then [] else Gathered(ds[..|ds| - 1], k) + Get(ds[|ds| - 1], k)
  }

  lemma GetJoin<K, V>(a: map<K, seq<V>>, b: map<K, seq<V>>, k: K)
    ensures Get(Join(a, b), k) == Get(a, k) + Get(b, k)
  {
    if k !in a {
      assert Get(a, k) + Get(b, k) == Get(b, k);
    } else if k !in b {
      assert Get(a, k) + Get(b, k) == Get(a, k);
    }
  }

  /** Under each key, joining gives the values of all the dictionaries, in argument order. */
  lemma {:induction false} JoinAllGathers<K, V>(ds: seq<map<K, seq<V>>>, k: K)
    ensures Get(JoinAll(ds), k) == Gathered(ds, k)
    decreases |ds|
  {
    if ds != [] {
      JoinAllGathers(ds[..|ds| - 1], k);
      GetJoin(JoinAll(ds[..|ds| - 1]), ds[|ds| - 1], k);
    }
  }

  /** The keys of the dictionaries of `ds`. */
  function KeysOf<K, V>(ds: seq<map<K, seq<V>>>): set<K>
    decreases |ds|
  {
    if ds == [] then {} else KeysOf(ds[..|ds| - 1]) + ds[|ds| - 1].Keys
  }

  /** Joining keeps exactly the keys that some dictionary has. */
  lemma {:induction false} JoinAllKeys<K, V>(ds: seq<map<K, seq<V>>>)
    ensures JoinAll(ds).Keys == KeysOf(ds)
    decreases |ds|
  {
    if ds != [] {
      JoinAllKeys(ds[..|ds| - 1]);
    }
  }

  lemma {:induction false} KeysOfAny<K, V>(ds: seq<map<K, seq<V>>>, k: K)
    ensures k in KeysOf(ds) <==> exists i :: 0 <= i < |ds| && k in ds[i]
    decreases |ds|
  {
    if ds != [] {
      var init := ds[..|ds| - 1];
      KeysOfAny(init, k);
      if k in KeysOf(init) {
        var i :| 0 <= i < |init| && k in init[i];
        assert ds[i] == init[i];
      }
      if exists i :: 0 <= i < |ds| && k in ds[i] {
        var i :| 0 <= i < |ds| && k in ds[i];
        if i < |init| {
          assert init[i] == ds[i];
        }
      }
    }
  }

  /** The entries of `d` whose keys are in `ks`. */
  function Restrict<K, V>(d: map<K, seq<V>>, ks: set<K>): map<K, seq<V>>
    requires ks <= d.Keys
  {
    map k | k in ks :: d[k]
  }

  /** One more key of the dictionary being merged, as the loop of `dict_join` adds it. */
  lemma JoinStep<K, V>(base: map<K, seq<V>>, d: map<K, seq<V>>, done: set<K>, key: K)
    requires done <= d.Keys && key in d && key !in done
    ensures var f := Join(base, Restrict(d, done));
      Join(base, Restrict(d, done + {key}))
        == if key !in f then f[key := d[key]] else f[key := f[key] + d[key]]
  {
    var r1 := Restrict(d, done);
    var r2 := Restrict(d, done + {key});
    assert key !in r1 && r2.Keys == r1.Keys + {key};
    var f := Join(base, r1);
    var g := Join(base, r2);
    var h := if key !in f then f[key := d[key]] else f[key := f[key] + d[key]];
    forall k | k in g
      ensures k in h && g[k] == h[k]
    {
      if k != key {
        assert k in r2 <==> k in r1;
        if k in r1 {
          assert r2[k] == r1[k];
        }
      }
    }
    assert g == h;
  }

  /** `dict_join(left, right, *rest)`, dictionary by dictionary. */
  method DictJoin<K, V>(left: map<K, seq<V>>, right: map<K, seq<V>>, rest: seq<map<K, seq<V>>>)
    returns (finale: map<K, seq<V>>)
    ensures finale == JoinAll([left, right] + rest)
  {
    var listed := [left, right] + rest;
    finale := map[];
    for i := 0 to |listed|
      invariant finale == JoinAll(listed[..i])
    {
      finale := Merge(finale, listed[i]);
      assert listed[..i + 1][..i] == listed[..i];
    }
    assert listed[..|listed|] == listed;
  }

  /** The inner loop of `dict_join`: each key of `di` in turn, added or appended to. */
  method Merge<K, V>(start: map<K, seq<V>>, di: map<K, seq<V>>) returns (finale: map<K, seq<V>>)
    ensures finale == Join(start, di)
  {
    finale := start;
    var keys := di.Keys;
    ghost var done: set<K> := {};
    assert Restrict(di, done) == map[];
    assert Join(start, map[]) == start;
    while keys != {}
      invariant keys !! done && keys + done == di.Keys
      invariant finale == Join(start, Restrict(di, done))
      decreases keys
    {
      var key :| key in keys;
      JoinStep(start, di, done, key);
      if key !in finale {
        finale := finale[key := di[key]];
      } else {
        finale := finale[key := finale[key] + di[key]];
      }
      keys := keys - {key};
      done := done + {key};
    }
    assert Restrict(di, done) == di;
  }

  // ---------------------------------------------------------------------------
  // Finding the children of a token

  function OptShift(r: Option<nat>, n: nat): Option<nat> {
    if r.Some? then Some(r.value + n) else None
  }

  /**
   * Where the `}` closing an already open `{` is, in `u`, when `depth` more
   * pairs are open inside it; `None` when the end of `u` comes first.
   */
  function MatchClose(u: string, depth: nat): (r: Option<nat>)
    ensures r.Some? ==> r.value < |u| && u[r.value] == '}'
    decreases |u|
  {
    if u == [] then None
    else if u[0] == '}' then (if depth == 0 then Some(0) else OptShift(MatchClose(u[1..], depth - 1), 1))
    else if u[0] == '{' then OptShift(MatchClose(u[1..], depth + 1), 1)
    else OptShift(MatchClose(u[1..], depth), 1)
  }

  /**
   * Reference reading of the outermost pairs of `t` (which starts at position
   * `offset` of the token): each `{` at the outer level opens a child that
   * ends at its matching `}`; a `}` at the outer level is an error at its
   * position; a `{` never closed ends the reading without a child.
   */
  function TopLevel(t: string, offset: nat): Result<seq<string>, Error>
    decreases |t|
  {
    if t == [] then Ok([])
    else if t[0] == '}' then Err(UnmatchedClosingKey(offset))
    else if t[0] == '{' then
      match MatchClose(t[1..], 0)
      case None => Ok([])
      case Some(q) =>
        match TopLevel(t[q + 2..], offset + q + 2)
        case Ok(rest) => Ok([t[1..q + 1]] + rest)
        case Err(e) => Err(e)
    else TopLevel(t[1..], offset + 1)
  }

  /** `raw` followed by what `r` read, or `r`'s error. */
  function Then(raw: seq<string>, r: Result<seq<string>, Error>): Result<seq<string>, Error> {
    match r
    case Ok(rest) => Ok(raw + rest)
    case Err(e) => Err(e)
  }

  /**
   * The invariant of the scanning loop after `i` characters: with an empty
   * stack the rest of the reference reading starts at `i`; otherwise it starts
   * at the outermost open `{`, and the match of that `{` is where the match of
   * the `|stack| - 1` pairs still open inside it is.
   */
  ghost predicate ScanInv(s: string, i: nat, stack: seq<nat>, raw: seq<string>) {
    && i <= |s|
    && (stack == [] ==> Then(raw, TopLevel(s[i..], i)) == TopLevel(s, 0))
    && (stack != [] ==>
          && stack[0] < i && s[stack[0]] == '{'
          && Then(raw, TopLevel(s[stack[0]..], stack[0])) == TopLevel(s, 0)
          && MatchClose(s[stack[0] + 1..], 0) == OptShift(MatchClose(s[i..], |stack| - 1), i - stack[0] - 1))
  }

  lemma ScanStart(s: string)
    ensures ScanInv(s, 0, [], [])
  {
    assert s[0..] == s;
    if TopLevel(s, 0).Ok? {
      assert [] + TopLevel(s, 0).value == TopLevel(s, 0).value;
    }
  }

  lemma ThenAppend(raw: seq<string>, x: string, r: Result<seq<string>, Error>)
    ensures Then(raw + [x], r) == Then(raw, Then([x], r))
  {
    if r.Ok? {
      assert raw + [x] + r.value == raw + ([x] + r.value);
    }
  }

  /** A character that is not a brace, with nothing open. */
  lemma ScanPlain(s: string, i: nat, raw: seq<string>)
    requires i < |s| && ScanInv(s, i, [], raw) && s[i] != '}' && s[i] != '{'
    ensures ScanInv(s, i + 1, [], raw)
  {
    assert s[i..][1..] == s[i + 1..];
  }

  /** A `{` inside an open pair opens one more. */
  lemma ScanNested(s: string, i: nat, stack: seq<nat>, raw: seq<string>)
    requires i < |s| && ScanInv(s, i, stack, raw) && stack != [] && s[i] == '{'
    ensures ScanInv(s, i + 1, stack + [i], raw)
  {
    var d := |stack| - 1;
    assert s[i..][1..] == s[i + 1..];
    var inner := MatchClose(s[i + 1..], d + 1);
    assert MatchClose(s[i..], d) == OptShift(inner, 1);
    OptShiftShift(inner, 1, i - stack[0] - 1);
    assert MatchClose(s[stack[0] + 1..], 0) == OptShift(inner, i - stack[0]);
  }

  /** A character that is not a brace, inside an open pair. */
  lemma ScanInside(s: string, i: nat, stack: seq<nat>, raw: seq<string>)
    requires i < |s| && ScanInv(s, i, stack, raw) && stack != [] && s[i] != '}' && s[i] != '{'
    ensures ScanInv(s, i + 1, stack, raw)
  {
    var d := |stack| - 1;
    assert s[i..][1..] == s[i + 1..];
    var inner := MatchClose(s[i + 1..], d);
    assert MatchClose(s[i..], d) == OptShift(inner, 1);
    OptShiftShift(inner, 1, i - stack[0] - 1);
    assert MatchClose(s[stack[0] + 1..], 0) == OptShift(inner, i - stack[0]);
  }

  lemma OptShiftShift(r: Option<nat>, a: nat, b: nat)
    ensures OptShift(OptShift(r, a), b) == OptShift(r, a + b)
  {
  }

  /** A `{` with nothing open opens a pair. */
  lemma ScanOpen(s: string, i: nat, raw: seq<string>)
    requires i < |s| && ScanInv(s, i, [], raw) && s[i] == '{'
    ensures ScanInv(s, i + 1, [i], raw)
  {
    assert s[i..][1..] == s[i + 1..];
  }

  /** A `}` inside a nested pair closes that pair only. */
  lemma ScanCloseInner(s: string, i: nat, stack: seq<nat>, raw: seq<string>)
    requires i < |s| && ScanInv(s, i, stack, raw) && s[i] == '}' && |stack| > 1
    ensures ScanInv(s, i + 1, stack[..|stack| - 1], raw)
  {
    assert s[i..][1..] == s[i + 1..];
  }

  /** A `}` closing the outermost pair makes a child of the text strictly inside it. */
  lemma ScanCloseOuter(s: string, i: nat, start: nat, raw: seq<string>)
    requires i < |s| && ScanInv(s, i, [start], raw) && s[i] == '}'
    ensures start < i
    ensures ScanInv(s, i + 1, [], raw + [s[start + 1..i]])
  {
    var t := s[start..];
    var q := i - start - 1;
    var child := s[start + 1..i];
    var rest := TopLevel(s[i + 1..], i + 1);
    assert MatchClose(s[i..], 0) == Some(0);
    assert t[1..] == s[start + 1..];
    assert t[1..q + 1] == child;
    assert t[q + 2..] == s[i + 1..];
    TopLevelOpen(t, start, q);
    ThenAppend(raw, child, rest);
  }

  /** A pair at the head of `t`: its text, then the reading of what follows it. */
  lemma TopLevelOpen(t: string, offset: nat, q: nat)
    requires t != [] && t[0] == '{' && MatchClose(t[1..], 0) == Some(q)
    ensures q + 2 <= |t|
    ensures TopLevel(t, offset) == Then([t[1..q + 1]], TopLevel(t[q + 2..], offset + q + 2))
  {
  }

  /** A `}` with nothing open is the error the reading reports. */
  lemma ScanStray(s: string, i: nat, raw: seq<string>)
    requires i < |s| && ScanInv(s, i, [], raw) && s[i] == '}'
    ensures TopLevel(s, 0) == Err(UnmatchedClosingKey(i))
  {
  }

  /** At the end of the string the children collected are all the reading gives. */
  lemma ScanEnd(s: string, stack: seq<nat>, raw: seq<string>)
    requires ScanInv(s, |s|, stack, raw)
    ensures TopLevel(s, 0) == Ok(raw)
  {
    if stack == [] {
      assert raw + [] == raw;
    } else {
      var t := s[stack[0]..];
      assert t[1..] == s[stack[0] + 1..];
      assert raw + [] == raw;
    }
  }

  /** One character of the scanning loop, when it is not a stray `}`: push, pop or nothing. */
  method ScanOne(s: string, i: nat, stack: seq<nat>, raw: seq<string>) returns (stack': seq<nat>, raw': seq<string>)
    requires i < |s| && ScanInv(s, i, stack, raw) && !(s[i] == '}' && stack == [])
    ensures ScanInv(s, i + 1, stack', raw')
  {
    stack', raw' := stack, raw;
    if s[i] == '{' {
      if stack == [] {
        ScanOpen(s, i, raw);
      } else {
        ScanNested(s, i, stack, raw);
      }
      stack' := stack + [i];
    } else if s[i] == '}' {
      var start := stack[|stack| - 1];
      if |stack| == 1 {
        assert stack == [start];
        ScanCloseOuter(s, i, start, raw);
      } else {
        ScanCloseInner(s, i, stack, raw);
      }
      stack' := stack[..|stack| - 1];
      if |stack'| == 0 {
        raw' := raw + [s[start + 1..i]];
      }
    } else if stack == [] {
      ScanPlain(s, i, raw);
    } else {
      ScanInside(s, i, stack, raw);
    }
  }

  /** The scanning loop of `Token.__init__`: the texts of the children, or the stray `}`. */
  method ScanChildren(s: string) returns (res: Result<seq<string>, Error>)
    ensures res == TopLevel(s, 0)
  {
    var stack: seq<nat> := [];
    var raw: seq<string> := [];
    ScanStart(s);
    for i := 0 to |s|
      invariant ScanInv(s, i, stack, raw)
    {
      if s[i] == '}' && stack == [] {
        ScanStray(s, i, raw);
        return Err(UnmatchedClosingKey(i));
      }
      stack, raw := ScanOne(s, i, stack, raw);
    }
    ScanEnd(s, stack, raw);
    res := Ok(raw);
  }

  // ---------------------------------------------------------------------------
  // The stray-`}` error as the source writes it

  /**
   * `ERR_MISSING_OPENING_KEY`, the message template of the stray-`}` error,
   * written in parts around its first `}`.
   */
  const MissingOpeningKey: string :=
    "HFormat Token Error: Closing key '" + "}'" + " found without opening key '{' at position {}."

  /** What Python's `template.format(arg)` gives: a text, or the error it raises. */
  datatype Formatted = Text(text: string) | LoneClosingBrace | OtherField

  /**
   * Python's `template.format(arg)`, read left to right, for the fields the
   * messages use: `{{` and `}}` stand for one brace and `{}` for the argument.
   * A `}` that is not doubled raises ValueError "Single '}' encountered in
   * format string" when the reading reaches it.  Any other field (`OtherField`)
   * is not modelled.
   */
  function FormatOne(template: string, arg: string): Formatted
    decreases |template|
  {
    if template == [] then Text([])
    else if template[0] == '}' then
      if |template| > 1 && template[1] == '}' then PrependText("}", FormatOne(template[2..], arg))
      else LoneClosingBrace
    else if template[0] == '{' then
      if |template| > 1 && template[1] == '{' then PrependText("{", FormatOne(template[2..], arg))
      else if |template| > 1 && template[1] == '}' then PrependText(arg, FormatOne(template[2..], arg))
      else OtherField
    else PrependText([template[0]], FormatOne(template[1..], arg))
  }

  function PrependText(p: string, f: Formatted): Formatted {
    if f.Text? then Text(p + f.text) else f
  }

  /** Text without braces is read through unchanged: formatting `p + q` is `p` before formatting `q`. */
  lemma {:induction false} FormatPlainPrefix(p: string, q: string, arg: string)
    requires '{' !in p && '}' !in p
    ensures FormatOne(p + q, arg) == PrependText(p, FormatOne(q, arg))
  {
    if p != [] {
      assert (p + q)[0] == p[0] && (p + q)[1..] == p[1..] + q;
      FormatPlainPrefix(p[1..], q, arg);
      var f := FormatOne(q, arg);
      if f.Text? {
        assert [p[0]] + (p[1..] + f.text) == p + f.text;
      }
    } else {
      assert p + q == q;
      if FormatOne(q, arg).Text? {
        assert p + FormatOne(q, arg).text == FormatOne(q, arg).text;
      }
    }
  }

  /**
   * Formatting the stray-`}` message raises the lone-brace ValueError whatever
   * the position: its `'}'` is a single `}` met before any field.
   */
  lemma MissingOpeningKeyFails(arg: string)
    ensures FormatOne(MissingOpeningKey, arg) == LoneClosingBrace
  {
    var p := "HFormat Token Error: Closing key '";
    var r := " found without opening key '{' at position {}.";
    MessageHeadPlain(p);
    FormatPlainPrefix(p, "}'" + r, arg);
    LoneCloserFirst(r, arg);
    assert MissingOpeningKey == p + ("}'" + r);
  }

  lemma MessageHeadPlain(p: string)
    requires p == "HFormat Token Error: Closing key '"
    ensures '{' !in p && '}' !in p
  {
  }

  /** A template that starts with a single `}` fails at once. */
  lemma LoneCloserFirst(r: string, arg: string)
    ensures FormatOne("}'" + r, arg) == LoneClosingBrace
  {
  }

  /**
   * `Token.__init__` as written: on a stray `}` at `i` it evaluates
   * `ERR_MISSING_OPENING_KEY.format(i)` before raising, and what that
   * formatting raises is what the caller sees.
   */
  function ScanAsWritten(s: string): Result<seq<string>, Error> {
    var t := TopLevel(s, 0);
    if t.Err? && t.error.UnmatchedClosingKey? && FormatOne(MissingOpeningKey, IntToString(t.error.position)).LoneClosingBrace? then
      Err(SingleClosingBrace)
    else t
  }

  /**
   * As written, a stray `}` never gives the SyntaxError with its position: the
   * caller gets the position-free ValueError instead.  Strings the reading
   * accepts are unaffected.
   */
  lemma StrayCloserAsWritten(s: string, i: nat)
    requires TopLevel(s, 0) == Err(UnmatchedClosingKey(i))
    ensures ScanAsWritten(s) == Err(SingleClosingBrace)
    ensures ScanAsWritten(s) != TopLevel(s, 0)
  {
    MissingOpeningKeyFails(IntToString(i));
  }

  /** The input `a}`: the intended error names position 1; as written it is the ValueError. */
  lemma StrayCloserExample()
    ensures TopLevel("a}", 0) == Err(UnmatchedClosingKey(1))
    ensures ScanAsWritten("a}") == Err(SingleClosingBrace)
  {
    assert "a}"[1..] == "}";
    StrayCloserAsWritten("a}", 1);
  }

  // ---------------------------------------------------------------------------
  // Properties of the reading

  /** Walking `p` from `depth` open pairs, no `}` is met with nothing open. */
  ghost predicate NoUnderflow(p: string, depth: nat)
    decreases |p|
  {
    p == []
    || (p[0] == '}' && depth > 0 && NoUnderflow(p[1..], depth - 1))
    || (p[0] == '{' && NoUnderflow(p[1..], depth + 1))
    || (p[0] != '}' && p[0] != '{' && NoUnderflow(p[1..], depth))
  }

  /** The text before a matching `}` never closes more than it opened. */
  lemma {:induction false} MatchedPrefix(u: string, depth: nat, q: nat)
    requires MatchClose(u, depth) == Some(q)
    ensures NoUnderflow(u[..q], depth)
    decreases |u|
  {
    if q > 0 {
      var d' := if u[0] == '}' then depth - 1 else if u[0] == '{' then depth + 1 else depth;
      MatchedPrefix(u[1..], d', q - 1);
      assert u[..q][1..] == u[1..][..q - 1];
    }
  }

  /** Walking one pair deeper, what follows the match is balanced again. */
  lemma {:induction false} AfterMatch(v: string, depth: nat, q: nat)
    requires NoUnderflow(v, depth + 1) && MatchClose(v, depth) == Some(q)
    ensures NoUnderflow(v[q + 1..], 0)
    decreases |v|
  {
    if q > 0 {
      var d' := if v[0] == '}' then depth - 1 else if v[0] == '{' then depth + 1 else depth;
      AfterMatch(v[1..], d', q - 1);
      assert v[1..][q..] == v[q + 1..];
    }
  }

  /** A balanced text has no stray `}`. */
  lemma {:induction false} BalancedReads(p: string, offset: nat)
    requires NoUnderflow(p, 0)
    ensures TopLevel(p, offset).Ok?
    decreases |p|
  {
    if p != [] {
      if p[0] == '{' {
        match MatchClose(p[1..], 0)
        case None =>
        case Some(q) =>
          AfterMatch(p[1..], 0, q);
          assert p[1..][q + 1..] == p[q + 2..];
          BalancedReads(p[q + 2..], offset + q + 2);
      } else {
        BalancedReads(p[1..], offset + 1);
      }
    }
  }

  /**
   * Every child is the text strictly between a `{` and its matching `}`, and
   * reading a child never meets a stray `}`.
   */
  lemma {:induction false} ChildrenRead(t: string, offset: nat, k: nat)
    requires TopLevel(t, offset).Ok? && k < |TopLevel(t, offset).value|
    ensures TopLevel(TopLevel(t, offset).value[k], 0).Ok?
    ensures |TopLevel(t, offset).value[k]| < |t|
    decreases |t|
  {
    if t[0] == '{' {
      var q := MatchClose(t[1..], 0).value;
      if k == 0 {
        MatchedPrefix(t[1..], 0, q);
        assert t[1..][..q] == t[1..q + 1];
        BalancedReads(t[1..q + 1], 0);
      } else {
        ChildrenRead(t[q + 2..], offset + q + 2, k - 1);
      }
    } else {
      ChildrenRead(t[1..], offset + 1, k);
    }
  }

  /** Without a `}` there are no children and no error, whatever `{` there are. */
  lemma {:induction false} NoCloserNoChildren(t: string, offset: nat)
    requires '}' !in t
    ensures TopLevel(t, offset) == Ok([])
    decreases |t|
  {
    if t != [] {
      if t[0] == '{' {
        NoCloserNoMatch(t[1..], 0);
      } else {
        NoCloserNoChildren(t[1..], offset + 1);
      }
    }
  }

  lemma {:induction false} NoCloserNoMatch(u: string, depth: nat)
    requires '}' !in u
    ensures MatchClose(u, depth) == None
    decreases |u|
  {
    if u != [] {
      NoCloserNoMatch(u[1..], if u[0] == '{' then depth + 1 else depth);
    }
  }

  // ---------------------------------------------------------------------------
  // The token tree

  class Token {
    /** `token`: the text, without the surrounding braces. */
    const text: string
    /** `gen`: the depth, 0 for the whole string. */
    const gen: nat
    /** `childs`, in order of appearance. */
    const children: seq<Token>
    /** `parent`, set by the token that builds this one. */
    var parent: Option<Token>
    /** `conversion`, `None` until the formatter sets it. */
    var conversion: Option<string>
    /** The height of the tree below, for termination. */
    ghost const height: nat
    /** Every token below this one. */
    ghost const below: set<Token>

    /** The shape of a token tree, all of it fixed at construction. */
    ghost predicate Valid()
      decreases height
    {
      && TopLevel(text, 0) == Ok(Texts(children))
      && forall i :: 0 <= i < |children| ==>
           && children[i].height < height
           && children[i].gen == gen + 1
           && children[i] in below && children[i].below <= below
           && children[i].Valid()
    }

    constructor (text: string, gen: nat, children: seq<Token>)
      requires forall i :: 0 <= i < |children| ==> children[i].gen == gen + 1 && children[i].Valid()
      requires TopLevel(text, 0) == Ok(Texts(children))
      ensures Valid()
      ensures this.text == text && this.gen == gen && this.children == children
      ensures parent == None && conversion == None
      ensures below == UnionBelow(children)
    {
      this.text := text;
      this.gen := gen;
      this.children := children;
      this.height := MaxHeight(children) + 1;
      this.below := UnionBelow(children);
      parent := None;
      conversion := None;
      new;
      UnionBelowHolds(children);
    }

    /**
     * `Token(s, gen)`: the token of `s` with one child per outermost pair, built
     * the same way one generation deeper, each child's parent set to it; or the
     * error of a stray `}`.  Children never meet a stray `}` (`ChildrenRead`).
     */
    static method Build(s: string, gen: nat) returns (res: Result<Token, Error>)
      ensures res.Ok? <==> TopLevel(s, 0).Ok?
      ensures res.Err? ==> res.error == TopLevel(s, 0).error
      ensures res.Ok? ==>
        && fresh(res.value) && res.value.Valid() && res.value !in res.value.below
        && res.value.text == s && res.value.gen == gen
        && res.value.parent == None && res.value.conversion == None
        && res.value.ParentsLinked()
        && forall u :: u in res.value.below ==> fresh(u)
      decreases |s|, 1
    {
      var scanned := ScanChildren(s);
      if scanned.Err? {
        return Err(scanned.error);
      }
      var children := BuildChildren(s, scanned.value, gen);
      ghost var below := UnionBelow(children);
      UnionBelowHolds(children);
      assert forall u :: u in below ==> allocated(u);
      var t := new Token(s, gen, children);
      assert t !in below;
      LinkParents(t, children);
      res := Ok(t);
    }

    /** The loop of `Token.__init__` that sets each child's parent to the new token. */
    static method LinkParents(t: Token, children: seq<Token>)
      requires forall i :: 0 <= i < |children| ==>
        && children[i].Valid() && children[i].ParentsLinked() && children[i] !in children[i].below
      requires forall i, j :: 0 <= i < |children| && 0 <= j < |children| && i != j ==>
        children[j] != children[i] && children[j] !in children[i].below
      modifies set c | c in children
      ensures forall i :: 0 <= i < |children| ==> children[i].parent == Some(t)
      ensures forall i :: 0 <= i < |children| ==> children[i].ParentsLinked()
      ensures forall c :: c in children ==> c.conversion == old(c.conversion)
    {
      for k := 0 to |children|
        invariant forall i :: 0 <= i < k ==> children[i].parent == Some(t)
        invariant forall i :: 0 <= i < |children| ==> children[i].ParentsLinked()
        invariant forall c :: c in children ==> c.conversion == old(c.conversion)
      {
        children[k].parent := Some(t);
      }
    }

    /** The loop of `Token.__init__` that makes one token per child text, one generation deeper. */
    static method BuildChildren(s: string, raw: seq<string>, gen: nat) returns (children: seq<Token>)
      requires TopLevel(s, 0) == Ok(raw)
      ensures Texts(children) == raw
      ensures forall i :: 0 <= i < |children| ==>
        && children[i].gen == gen + 1 && children[i].Valid() && children[i].ParentsLinked()
        && children[i] !in children[i].below
      ensures forall i, j :: 0 <= i < |children| && 0 <= j < |children| && i != j ==>
        children[j] != children[i] && children[j] !in children[i].below
      ensures forall u :: u in UnionBelow(children) ==> fresh(u)
      decreases |s|, 0
    {
      children := [];
      for k := 0 to |raw|
        invariant |children| == k
        invariant forall i :: 0 <= i < k ==>
          && children[i].text == raw[i] && children[i].gen == gen + 1
          && children[i].Valid() && children[i].ParentsLinked()
          && fresh(children[i]) && (forall u :: u in children[i].below ==> fresh(u))
          && children[i] !in children[i].below
        invariant forall i, j :: 0 <= i < k && 0 <= j < k && i != j ==>
          children[j] != children[i] && children[j] !in children[i].below
      {
        ChildrenRead(s, 0, k);
        var built := Build(raw[k], gen + 1);
        children := children + [built.value];
      }
      UnionBelowHolds(children);
    }

    /** Each token below has its parent set to the token whose child it is. */
    ghost predicate ParentsLinked()
      requires Valid()
      reads below
      decreases height
    {
      forall i :: 0 <= i < |children| ==> children[i].parent == Some(this) && children[i].ParentsLinked()
    }

    /** The tokens of the tree in pre-order: this one, then each child's tree in turn. */
    function Subtree(): (ts: seq<Token>)
      requires Valid()
      ensures |ts| > 0 && ts[0] == this
      decreases height, |children| + 1
    {
      SubtreeUpTo(|children|)
    }

    function SubtreeUpTo(k: nat): (ts: seq<Token>)
      requires Valid() && k <= |children|
      ensures |ts| > 0 && ts[0] == this
      decreases height, k
    {
      if k == 0 then [this] else SubtreeUpTo(k - 1) + children[k - 1].Subtree()
    }

    /** `list()`: the tokens of the tree by generation. */
    function List(): map<nat, seq<Token>>
      requires Valid()
      decreases height, |children| + 1
    {
      ListUpTo(|children|)
    }

    /** `back` after joining the lists of the first `k` children. */
    function ListUpTo(k: nat): map<nat, seq<Token>>
      requires Valid() && k <= |children|
      decreases height, k
    {
      if k == 0 then map[gen := [this]] else Join(ListUpTo(k - 1), children[k - 1].List())
    }

    /**
     * `list()` puts under each generation exactly the tokens of the tree of
     * that generation, in pre-order, and has a key only for generations that
     * occur.
     */
    lemma {:induction false} ListByGeneration(g: nat)
      requires Valid()
      ensures Get(List(), g) == OfGen(Subtree(), g)
      ensures g in List() <==> OfGen(Subtree(), g) != []
      decreases height, |children| + 1
    {
      ListUpToByGeneration(|children|, g);
    }

    lemma {:induction false} ListUpToByGeneration(k: nat, g: nat)
      requires Valid() && k <= |children|
      ensures Get(ListUpTo(k), g) == OfGen(SubtreeUpTo(k), g)
      ensures g in ListUpTo(k) <==> OfGen(SubtreeUpTo(k), g) != []
      decreases height, k
    {
      if k > 0 {
        var c := children[k - 1];
        ListUpToByGeneration(k - 1, g);
        c.ListByGeneration(g);
        OfGenConcat(SubtreeUpTo(k - 1), c.Subtree(), g);
      }
    }

    /** The token itself comes first under its own generation. */
    lemma FirstOfOwnGeneration()
      requires Valid()
      ensures gen in List() && |List()[gen]| > 0 && List()[gen][0] == this
    {
      ListByGeneration(gen);
      var ts := Subtree();
      assert ts == [ts[0]] + ts[1..];
      OfGenConcat([ts[0]], ts[1..], gen);
    }

    /** Every token of the tree is well formed, and is this one or lies below it, one generation on at least. */
    lemma {:induction false} SubtreeMembers()
      requires Valid()
      ensures forall t :: t in Subtree() ==> t.Valid() && (t == this || (t in below && t.gen > gen))
      decreases height, |children| + 1
    {
      SubtreeUpToMembers(|children|);
    }

    lemma {:induction false} SubtreeUpToMembers(k: nat)
      requires Valid() && k <= |children|
      ensures forall t :: t in SubtreeUpTo(k) ==> t.Valid() && (t == this || (t in below && t.gen > gen))
      decreases height, k
    {
      if k > 0 {
        SubtreeUpToMembers(k - 1);
        children[k - 1].SubtreeMembers();
      }
    }

    /** The children of a token of the tree are tokens of the tree too. */
    lemma {:induction false} ChildrenInSubtree()
      requires Valid()
      ensures forall t, i :: t in Subtree() && 0 <= i < |t.children| ==> t.children[i] in Subtree()
      decreases height, |children| + 1
    {
      SubtreeUpToChildren(|children|);
    }

    lemma {:induction false} SubtreeUpToChildren(k: nat)
      requires Valid() && k <= |children|
      ensures forall i :: 0 <= i < k ==> children[i] in SubtreeUpTo(k)
      ensures forall t, i :: t in SubtreeUpTo(k) && t != this && 0 <= i < |t.children| ==> t.children[i] in SubtreeUpTo(k)
      decreases height, k
    {
      if k > 0 {
        var c := children[k - 1];
        SubtreeUpToChildren(k - 1);
        c.ChildrenInSubtree();
        SubtreeUpToMembers(k - 1);
        c.SubtreeMembers();
        var front := SubtreeUpTo(k - 1);
        var back := c.Subtree();
        assert SubtreeUpTo(k) == front + back;
        forall t, i | t in front + back && t != this && 0 <= i < |t.children|
          ensures t.children[i] in front + back
        {
          if t in back {
          } else {
            assert t in front;
          }
        }
        assert c == back[0];
      }
    }

    /** The children's conversions put back, as `replace_child_conversions` does for the first `k`. */
    function SubstitutedUpTo(k: nat): Result<string, Error>
      requires k <= |children|
      reads children
      decreases k
    {
      if k == 0 then Ok(text)
      else match SubstitutedUpTo(k - 1)
        case Err(e) => Err(e)
        case Ok(out) =>
          var c := children[k - 1];
          if c.conversion.None? then Err(ChildNotConverted(text, c.text))
          else Ok(ReplaceFirst(out, "{" + c.text + "}", c.conversion.value))
    }

    function Substituted(): Result<string, Error>
      reads children
    {
      SubstitutedUpTo(|children|)
    }

    /** `replace_child_conversions` */
    method ReplaceChildConversions() returns (res: Result<string, Error>)
      ensures res == Substituted()
    {
      var out := text;
      for k := 0 to |children|
        invariant SubstitutedUpTo(k) == Ok(out)
      {
        var child := children[k];
        if child.conversion.None? {
          ErrorSticks(k + 1, |children|);
          return Err(ChildNotConverted(text, child.text));
        }
        out := ReplaceFirst(out, "{" + child.text + "}", child.conversion.value);
      }
      res := Ok(out);
    }

    /**
     * Putting the conversions back fails exactly when some child has none, and
     * then it names the first such child.
     */
    lemma {:induction false} SubstitutedFails(k: nat)
      requires k <= |children|
      ensures SubstitutedUpTo(k).Err? <==> exists i :: 0 <= i < k && children[i].conversion.None?
      ensures SubstitutedUpTo(k).Err? ==>
        exists i :: 0 <= i < k && children[i].conversion.None?
          && SubstitutedUpTo(k).error == ChildNotConverted(text, children[i].text)
          && forall j :: 0 <= j < i ==> children[j].conversion.Some?
      decreases k
    {
      if k > 0 {
        SubstitutedFails(k - 1);
      }
    }

    /** Once a child without a conversion is met, the error stays. */
    lemma {:induction false} ErrorSticks(k: nat, n: nat)
      requires k <= n <= |children| && SubstitutedUpTo(k).Err?
      ensures SubstitutedUpTo(n) == SubstitutedUpTo(k)
      decreases n
    {
      if k < n {
        ErrorSticks(k, n - 1);
      }
    }

    /** A token without a `}` has no children, so its text comes back unchanged. */
    lemma NoCloserUnchanged()
      requires Valid() && '}' !in text
      ensures Substituted() == Ok(text)
    {
      NoCloserNoChildren(text, 0);
      assert |Texts(children)| == 0;
    }
  }

  /** The texts of `ts`, in order. */
  function Texts(ts: seq<Token>): (xs: seq<string>)
    ensures |xs| == |ts| && forall i :: 0 <= i < |ts| ==> xs[i] == ts[i].text
  {
    seq(|ts|, i requires 0 <= i < |ts| => ts[i].text)
  }

  /** A token's children are one generation deeper. */
  lemma ChildrenOneDeeper(t: Token)
    requires t.Valid()
    ensures forall c :: c in t.children ==> c.gen == t.gen + 1
  {
    forall c | c in t.children
      ensures c.gen == t.gen + 1
    {
      var i :| 0 <= i < |t.children| && t.children[i] == c;
    }
  }

  /** The tokens of `ts` of generation `g`, in order. */
  function OfGen(ts: seq<Token>, g: nat): seq<Token>
    decreases |ts|
  {
    if ts == [] then []
    else if ts[|ts| - 1].gen == g then OfGen(ts[..|ts| - 1], g) + [ts[|ts| - 1]]
    else OfGen(ts[..|ts| - 1], g)
  }

  lemma {:induction false} OfGenConcat(a: seq<Token>, b: seq<Token>, g: nat)
    ensures OfGen(a + b, g) == OfGen(a, g) + OfGen(b, g)
    decreases |b|
  {
    if b != [] {
      var b' := b[..|b| - 1];
      assert (a + b)[..|a + b| - 1] == a + b';
      OfGenConcat(a, b', g);
    } else {
      assert a + b == a;
    }
  }

  /** The tokens picked for a generation are exactly the tokens of `ts` of that generation. */
  lemma {:induction false} OfGenMembers(ts: seq<Token>, g: nat)
    ensures forall t :: t in OfGen(ts, g) <==> t in ts && t.gen == g
    decreases |ts|
  {
    if ts != [] {
      OfGenMembers(ts[..|ts| - 1], g);
    }
  }

  ghost function MaxHeight(ts: seq<Token>): (h: nat)
    ensures forall i :: 0 <= i < |ts| ==> ts[i].height <= h
    decreases |ts|
  {
    if ts == [] then 0
    else
      var m := MaxHeight(ts[..|ts| - 1]);
      if ts[|ts| - 1].height > m then ts[|ts| - 1].height else m
  }

  /** The tokens below the tokens of `ts`, those included. */
  ghost function UnionBelow(ts: seq<Token>): set<Token>
    decreases |ts|
  {
    if ts == [] then {} else UnionBelow(ts[..|ts| - 1]) + {ts[|ts| - 1]} + ts[|ts| - 1].below
  }

  lemma {:induction false} UnionBelowHolds(ts: seq<Token>)
    ensures forall i :: 0 <= i < |ts| ==> ts[i] in UnionBelow(ts) && ts[i].below <= UnionBelow(ts)
    ensures forall u :: u in UnionBelow(ts) ==> exists i :: 0 <= i < |ts| && (u == ts[i] || u in ts[i].below)
    decreases |ts|
  {
    if ts != [] {
      UnionBelowHolds(ts[..|ts| - 1]);
    }
  }
}
