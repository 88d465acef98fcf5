/**
 * The placeholder handler: hides substrings of a string behind 9-character
 * markers, records what each marker hides, and brings the hidden text back.
 * Markers are 4 safe characters, one rotating "secure" character, then 4 more
 * safe characters.  The random choice of the safe characters is replaced by an
 * injected choice function `pick`, consulted once per safe position.
 */
module Placeholder {
  import opened Wrappers
  import opened Strings

  /** `_SECURE_CHARS`: codes 48..56, 65..89 and 97..121, i.e. '0'..'8', 'A'..'Y', 'a'..'y'. */
  const SecureCount: nat := 59
  const DefaultSafeChars: string := "$_"

  predicate IsSafeChar(c: char) {
    c in DefaultSafeChars
  }

  predicate IsSecureChar(c: char) {
    ('0' <= c <= '8') || ('A' <= c <= 'Y') || ('a' <= c <= 'y')
  }

  function SecureChar(i: nat): (c: char)
    requires i < SecureCount
    ensures IsSecureChar(c)
  {
    if i < 9 then (48 + i) as char
    else if i < 34 then (65 + (i - 9)) as char
    else (97 + (i - 34)) as char
  }

  /** Distinct positions of the secure table give distinct characters. */
  lemma SecureCharsDistinct(i: nat, j: nat)
    requires i < SecureCount && j < SecureCount && i != j
    ensures SecureChar(i) != SecureChar(j)
  {
  }

  /** The table position a new marker uses: the index, reset to 0 once it reached 59. */
  function Slot(index: nat): (k: nat)
    ensures k < SecureCount
  {
    if index >= SecureCount then 0 else index
  }

  /** The secure index after one more marker. */
  function Advance(index: nat): nat {
    Slot(index) + 1
  }

  /** The secure index after `n` more markers. */
  function IndexAfter(index: nat, n: nat): nat
    decreases n
  {
    if n == 0 then index else Advance(IndexAfter(index, n - 1))
  }

  /** Starting from a fresh handler, the index cycles through 1..59 and the slot through 0..58. */
  lemma {:induction false} IndexCycles(n: nat)
    ensures n > 0 ==> IndexAfter(0, n) == (n - 1) % SecureCount + 1
    ensures Slot(IndexAfter(0, n)) == n % SecureCount
    decreases n
  {
    if n > 0 {
      var before := IndexAfter(0, n - 1);
      IndexCycles(n - 1);
      assert IndexAfter(0, n) == Slot(before) + 1 == (n - 1) % SecureCount + 1;
      ModStep(n - 1);
    }
  }

  /** Counting on by one modulo 59 wraps from 58 to 0. */
  lemma ModStep(m: nat)
    ensures (m + 1) % SecureCount == if m % SecureCount == SecureCount - 1 then 0 else m % SecureCount + 1
  {
    var q := m / SecureCount;
    var r := m % SecureCount;
    assert m == SecureCount * q + r;
    if r == SecureCount - 1 {
      assert m + 1 == SecureCount * (q + 1);
    } else {
      assert m + 1 == SecureCount * q + (r + 1);
    }
  }

  /** Before the first reset the index simply counts the markers. */
  lemma {:induction false} IndexCounts(n: nat)
    requires n <= SecureCount
    ensures IndexAfter(0, n) == n
    decreases n
  {
    if n > 0 {
      var before := IndexAfter(0, n - 1);
      IndexCounts(n - 1);
      assert Slot(before) == n - 1;
    }
  }

  predicate IsMarker(m: string) {
    |m| == 9 && IsSecureChar(m[4])
    && forall k :: 0 <= k < 9 && k != 4 ==> IsSafeChar(m[k])
  }

  /** The three masking methods, with the identifying characters each one removes. */
  datatype Kind = Substring | After(idchar: char) | Between(open: char, close: char)

  datatype Record = Record(group: nat, name: string, hidden: string, kind: Kind)

  /** What a record's marker is put back as; `ignore` drops the identifying characters. */
  function Restored(r: Record, ignore: bool): string {
    if ignore then r.hidden
    else match r.kind
      case Substring => r.hidden
      case After(c) => [c] + r.hidden
      case Between(o, c) => [o] + r.hidden + [c]
  }

  function Hiddens(rs: seq<Record>): (hs: seq<string>)
    ensures |hs| == |rs| && forall k :: 0 <= k < |rs| ==> hs[k] == rs[k].hidden
  {
    seq(|rs|, k requires 0 <= k < |rs| => rs[k].hidden)
  }

  /** The string after masking the records in order: each record's text replaced by its marker. */
  function MaskAll(s: string, rs: seq<Record>): string
    decreases |rs|
  {
    if rs == [] then s
    else
      var last := rs[|rs| - 1];
      Replace(MaskAll(s, rs[..|rs| - 1]), Restored(last, false), last.name)
  }

  lemma MaskAllSnoc(s: string, rs: seq<Record>, rec: Record)
    ensures MaskAll(s, rs + [rec]) == Replace(MaskAll(s, rs), Restored(rec, false), rec.name)
  {
    assert (rs + [rec])[..|rs|] == rs;
  }

  /** One step of `_revert_groups`: a record of a selected group whose marker is present is put back. */
  function RevertStep(s: string, r: Record, groups: set<nat>, ignore: bool): string {
    if r.group in groups && Contains(s, r.name) then Replace(s, r.name, Restored(r, ignore)) else s
  }

  /** `_revert_groups` over the records in creation order. */
  function RevertAll(s: string, rs: seq<Record>, groups: set<nat>, ignore: bool): string
    decreases |rs|
  {
    if rs == [] then s else RevertStep(RevertAll(s, rs[..|rs| - 1], groups, ignore), rs[|rs| - 1], groups, ignore)
  }

  /** Records of groups that are not selected are never put back. */
  lemma {:induction false} RevertUnselected(s: string, rs: seq<Record>, groups: set<nat>, ignore: bool)
    requires forall k :: 0 <= k < |rs| ==> rs[k].group !in groups
    ensures RevertAll(s, rs, groups, ignore) == s
    decreases |rs|
  {
    if rs != [] {
      RevertUnselected(s, rs[..|rs| - 1], groups, ignore);
    }
  }

  /** The groups `revert` selects: `range(0, last + 1)`. */
  function UpTo(last: nat): (gs: set<nat>)
    ensures forall g: nat :: g in gs <==> g <= last
    decreases last
  {
    if last == 0 then {0} else UpTo(last - 1) + {last}
  }

  // ---------------------------------------------------------------------------
  // The `after` scanner

  /** The stop argument of `after`: characters, a count, or both. */
  datatype Stop = StopAt(chars: string) | StopAfter(count: int) | StopAtOrAfter(chars: string, limit: int)

  const DefaultStop: Stop := StopAt(" \n\t")

  /** The characters that end a run; none for a bare count. */
  function StopChars(stop: Stop): string {
    match stop
    case StopAt(cs) => cs
    case StopAfter(_) => []
    case StopAtOrAfter(cs, _) => cs
  }

  /** The largest run length; 1000 when only characters are given. */
  function StopLimit(stop: Stop): int {
    match stop
    case StopAt(_) => 1000
    case StopAfter(n) => n
    case StopAtOrAfter(_, n) => n
  }

  /** The scanner's variables: `new`, `plh`, `count` and `to_placehold`. */
  datatype ScanState = ScanState(active: bool, run: string, count: int, runs: seq<string>)

  const ScanStart := ScanState(false, [], 0, [])

  /** One character of the `after` loop. */
  function AfterStep(st: ScanState, c: char, idchar: char, stops: string, limit: int): ScanState {
    if st.active then
      if c in stops || st.count + 1 > limit then ScanState(false, [], 0, st.runs + [st.run])
      else ScanState(true, st.run + [c], st.count + 1, st.runs)
    else if c == idchar then ScanState(true, st.run, st.count, st.runs)
    else st
  }

  function AfterScan(s: string, st: ScanState, idchar: char, stops: string, limit: int): ScanState
    decreases |s|
  {
    if s == [] then st else AfterScan(s[1..], AfterStep(st, s[0], idchar, stops, limit), idchar, stops, limit)
  }

  /** The runs `after` hides: those closed during the scan, plus one still open at the end. */
  function AfterRuns(s: string, idchar: char, stops: string, limit: int): seq<string> {
    Finish(AfterScan(s, ScanStart, idchar, stops, limit))
  }

  /**
   * Reading one run: characters are taken until a stop character, or until
   * taking one more would exceed `limit` characters; the character that ends the
   * run is consumed.  `count` is the number of characters already looked at.
   */
  function TakeRun(t: string, count: int, stops: string, limit: int): (res: (string, string))
    ensures var (run, rest) := res;
      (run == t && rest == [])
      || (|run| < |t| && rest == t[|run| + 1..] && (t[|run|] in stops || count + |run| + 1 > limit))
    ensures forall k :: 0 <= k < |res.0| ==> res.0[k] !in stops
    ensures IsPrefix(res.0, t)
    ensures |res.0| <= if limit >= count then limit - count else 0
    decreases |t|
  {
    if t == [] then ([], [])
    else if t[0] in stops || count + 1 > limit then ([], t[1..])
    else
      var (run, rest) := TakeRun(t[1..], count + 1, stops, limit);
      ([t[0]] + run, rest)
  }

  /** Reference reading of `after`: every `idchar` not inside a run starts a run. */
  function RunsOf(s: string, idchar: char, stops: string, limit: int): seq<string>
    decreases |s|
  {
    if s == [] then []
    else if s[0] == idchar then
      var (run, rest) := TakeRun(s[1..], 0, stops, limit);
      [run] + RunsOf(rest, idchar, stops, limit)
    else RunsOf(s[1..], idchar, stops, limit)
  }

  /** The runs recorded once the scan has ended: an open run is recorded too. */
  function Finish(st: ScanState): seq<string> {
    if st.active then st.runs + [st.run] else st.runs
  }

  lemma {:induction false} ScanIdle(s: string, st: ScanState, idchar: char, stops: string, limit: int)
    requires !st.active && st.run == [] && st.count == 0
    ensures Finish(AfterScan(s, st, idchar, stops, limit)) == st.runs + RunsOf(s, idchar, stops, limit)
    decreases |s|, 0
  {
    if s != [] {
      if s[0] == idchar {
        var st' := ScanState(true, [], 0, st.runs);
        assert AfterStep(st, s[0], idchar, stops, limit) == st';
        ScanActive(s[1..], st', idchar, stops, limit);
        var res := TakeRun(s[1..], 0, stops, limit);
        assert [] + res.0 == res.0;
        assert RunsOf(s, idchar, stops, limit) == [res.0] + RunsOf(res.1, idchar, stops, limit);
      } else {
        ScanIdle(s[1..], st, idchar, stops, limit);
      }
    }
  }

  lemma {:induction false} ScanActive(s: string, st: ScanState, idchar: char, stops: string, limit: int)
    requires st.active
    ensures Finish(AfterScan(s, st, idchar, stops, limit))
      == st.runs + [st.run + TakeRun(s, st.count, stops, limit).0]
         + RunsOf(TakeRun(s, st.count, stops, limit).1, idchar, stops, limit)
    decreases |s|, 2
  {
    if s == [] {
      assert st.run + [] == st.run;
    } else if s[0] in stops || st.count + 1 > limit {
      ScanActiveEnds(s, st, idchar, stops, limit);
    } else {
      ScanActiveTakes(s, st, idchar, stops, limit);
    }
  }

  /** The character that ends a run is consumed, and scanning goes on idle. */
  lemma {:induction false} ScanActiveEnds(s: string, st: ScanState, idchar: char, stops: string, limit: int)
    requires st.active && s != [] && (s[0] in stops || st.count + 1 > limit)
    ensures Finish(AfterScan(s, st, idchar, stops, limit))
      == st.runs + [st.run + TakeRun(s, st.count, stops, limit).0]
         + RunsOf(TakeRun(s, st.count, stops, limit).1, idchar, stops, limit)
    decreases |s|, 1
  {
    var st' := ScanState(false, [], 0, st.runs + [st.run]);
    assert AfterStep(st, s[0], idchar, stops, limit) == st';
    ScanIdle(s[1..], st', idchar, stops, limit);
    assert TakeRun(s, st.count, stops, limit) == ([], s[1..]);
    assert st.run + [] == st.run;
  }

  /** A character that does not end the run is added to it. */
  lemma {:induction false} ScanActiveTakes(s: string, st: ScanState, idchar: char, stops: string, limit: int)
    requires st.active && s != [] && !(s[0] in stops || st.count + 1 > limit)
    ensures Finish(AfterScan(s, st, idchar, stops, limit))
      == st.runs + [st.run + TakeRun(s, st.count, stops, limit).0]
         + RunsOf(TakeRun(s, st.count, stops, limit).1, idchar, stops, limit)
    decreases |s|, 1
  {
    var st' := ScanState(true, st.run + [s[0]], st.count + 1, st.runs);
    var res := TakeRun(s[1..], st.count + 1, stops, limit);
    var whole := TakeRun(s, st.count, stops, limit);
    calc {
      Finish(AfterScan(s, st, idchar, stops, limit));
      { assert AfterStep(st, s[0], idchar, stops, limit) == st'; }
      Finish(AfterScan(s[1..], st', idchar, stops, limit));
      { ScanActive(s[1..], st', idchar, stops, limit); }
      st.runs + [st.run + [s[0]] + res.0] + RunsOf(res.1, idchar, stops, limit);
      { assert whole == ([s[0]] + res.0, res.1);
        assert st.run + [s[0]] + res.0 == st.run + whole.0; }
      st.runs + [st.run + whole.0] + RunsOf(whole.1, idchar, stops, limit);
    }
  }

  /** The state machine of `after` reads exactly the runs of the reference reading. */
  lemma AfterRunsAreRunsOf(s: string, idchar: char, stops: string, limit: int)
    ensures AfterRuns(s, idchar, stops, limit) == RunsOf(s, idchar, stops, limit)
  {
    ScanIdle(s, ScanStart, idchar, stops, limit);
  }

  /** With a count `n >= 0`, no run is longer than `n`, and no run holds a stop character. */
  lemma {:induction false} RunsBounded(s: string, idchar: char, stops: string, limit: int)
    ensures forall k :: 0 <= k < |RunsOf(s, idchar, stops, limit)| ==>
      var run := RunsOf(s, idchar, stops, limit)[k];
      (limit >= 0 ==> |run| <= limit) && forall j :: 0 <= j < |run| ==> run[j] !in stops
    decreases |s|
  {
    if s != [] {
      if s[0] == idchar {
        var (run, rest) := TakeRun(s[1..], 0, stops, limit);
        RunsBounded(rest, idchar, stops, limit);
      } else {
        RunsBounded(s[1..], idchar, stops, limit);
      }
    }
  }

  /** A string without `idchar` has no runs. */
  lemma {:induction false} NoIdcharNoRuns(s: string, idchar: char, stops: string, limit: int)
    requires idchar !in s
    ensures RunsOf(s, idchar, stops, limit) == []
    decreases |s|
  {
    if s != [] {
      NoIdcharNoRuns(s[1..], idchar, stops, limit);
    }
  }

  // ---------------------------------------------------------------------------
  // The `between` scanner

  function IndexOf(u: string, c: char): (r: Option<nat>)
    ensures r.Some? ==> r.value < |u| && u[r.value] == c && c !in u[..r.value]
    ensures r.None? ==> c !in u
    decreases |u|
  {
    if u == [] then None
    else if u[0] == c then Some(0)
    else match IndexOf(u[1..], c)
      case None => None
      case Some(q) => assert u[1..][..q] == u[1..q + 1]; Some(q + 1)
  }

  /**
   * Reference reading of `between`: the first opener starts a region and the
   * next closer ends it (no nesting); scanning resumes after the closer.  An
   * opener without a later closer starts nothing.
   */
  function Regions(t: string, open: char, close: char): seq<string>
    decreases |t|
  {
    if t == [] then []
    else if t[0] == open then
      match IndexOf(t[1..], close)
      case None => []
      case Some(q) => [t[1..1 + q]] + Regions(t[2 + q..], open, close)
    else Regions(t[1..], open, close)
  }

  /** No region contains the closing character. */
  lemma {:induction false} RegionsAvoidCloser(t: string, open: char, close: char)
    ensures forall k :: 0 <= k < |Regions(t, open, close)| ==> close !in Regions(t, open, close)[k]
    decreases |t|
  {
    if t != [] {
      if t[0] == open {
        match IndexOf(t[1..], close)
        case None =>
        case Some(q) =>
          assert t[1..1 + q] == t[1..][..q];
          RegionsAvoidCloser(t[2 + q..], open, close);
      } else {
        RegionsAvoidCloser(t[1..], open, close);
      }
    }
  }

  lemma RegionAt(t: string, open: char, close: char, q: nat)
    requires 0 < q < |t| && t[0] == open && t[q] == close
    requires forall j :: 0 < j < q ==> t[j] != close
    ensures Regions(t, open, close) == [t[1..q]] + Regions(t[q + 1..], open, close)
  {
    var u := t[1..];
    assert u[q - 1] == close;
    assert close !in u[..q - 1];
    assert IndexOf(u, close) == Some(q - 1);
    assert t[1..1 + (q - 1)] == t[1..q];
  }

  lemma RegionUnclosed(t: string, open: char, close: char)
    requires 0 < |t| && t[0] == open
    requires forall j :: 0 < j < |t| ==> t[j] != close
    ensures Regions(t, open, close) == []
  {
    var u := t[1..];
    assert close !in u;
  }

  lemma {:induction false} NoOpenerNoRegions(t: string, open: char, close: char)
    requires open !in t
    ensures Regions(t, open, close) == []
    decreases |t|
  {
    if t != [] {
      NoOpenerNoRegions(t[1..], open, close);
    }
  }

  /** The invariant of the handler's records: groups within the table, well-formed markers. */
  predicate WellFormed(rs: seq<Record>) {
    forall k :: 0 <= k < |rs| ==> rs[k].group <= SecureCount && IsMarker(rs[k].name)
  }

  lemma WellFormedSnoc(rs: seq<Record>, rec: Record)
    requires WellFormed(rs) && rec.group <= SecureCount && IsMarker(rec.name)
    ensures WellFormed(rs + [rec])
  {
  }

  /** Taking one more element of a sequence appends that element. */
  lemma TakeSnoc(xs: seq<string>, j: nat)
    requires j < |xs|
    ensures xs[..j + 1] == xs[..j] + [xs[j]]
  {
  }


  /** Appending a record appends its text and its marker, and keeps what comes before `n`. */
  lemma RecordsSnoc(rs: seq<Record>, rec: Record, n: nat)
    requires n <= |rs|
    ensures (rs + [rec])[..n] == rs[..n]
    ensures (rs + [rec])[n..] == rs[n..] + [rec]
    ensures Hiddens(rs[n..] + [rec]) == Hiddens(rs[n..]) + [rec.hidden]
  {
  }

  /** The texts of a masking call, one record longer. */
  lemma HiddensSnoc(rs: seq<Record>, n: nat, rec: Record, hidden: seq<string>)
    requires n <= |rs| && Hiddens(rs[n..]) == hidden
    ensures Hiddens((rs + [rec])[n..]) == hidden + [rec.hidden]
  {
    RecordsSnoc(rs, rec, n);
  }

  /** `close_char or open_char`: the closer defaults to the opener. */
  function CloserOf(open: char, close: Option<char>): char {
    if close.Some? then close.value else open
  }

  /**
   * The invariant of the loop of `between` after `i` characters: `made` holds
   * the regions closed so far, and the rest of the reference reading starts at
   * `i`, or at the pending opener on the stack.
   */
  ghost predicate BetweenInv(s: string, i: nat, stack: seq<nat>, made: seq<string>, open: char, close: char) {
    && i <= |s| && |stack| <= 1
    && (stack == [] ==> made + Regions(s[i..], open, close) == Regions(s, open, close))
    && (stack != [] ==>
          && stack[0] < i && s[stack[0]] == open
          && (forall j :: stack[0] < j < i ==> s[j] != close)
          && made + Regions(s[stack[0]..], open, close) == Regions(s, open, close))
  }

  /** A character that neither closes a pending region nor opens a new one is skipped. */
  lemma BetweenSkip(s: string, i: nat, stack: seq<nat>, made: seq<string>, open: char, close: char)
    requires i < |s| && BetweenInv(s, i, stack, made, open, close)
    requires !(stack == [] && s[i] == open) && !(stack != [] && s[i] == close)
    ensures BetweenInv(s, i + 1, stack, made, open, close)
  {
    if stack == [] {
      assert s[i..][1..] == s[i + 1..];
    }
  }

  /** An opener while nothing is pending becomes the pending opener. */
  lemma BetweenOpen(s: string, i: nat, made: seq<string>, open: char, close: char)
    requires i < |s| && BetweenInv(s, i, [], made, open, close) && s[i] == open
    ensures BetweenInv(s, i + 1, [i], made, open, close)
  {
  }

  /** A closer while an opener is pending ends the region between them. */
  lemma BetweenClose(s: string, i: nat, start: nat, made: seq<string>, open: char, close: char)
    requires i < |s| && BetweenInv(s, i, [start], made, open, close) && s[i] == close
    ensures start + 1 <= i
    ensures BetweenInv(s, i + 1, [], made + [s[start + 1..i]], open, close)
  {
    var t := s[start..];
    var q := i - start;
    forall j | 0 < j < q
      ensures t[j] != close
    {
      assert t[j] == s[start + j];
    }
    RegionAt(t, open, close, q);
    assert t[1..q] == s[start + 1..i];
    assert t[q + 1..] == s[i + 1..];
    var rest := Regions(s[i + 1..], open, close);
    calc {
      made + [s[start + 1..i]] + rest;
      made + ([s[start + 1..i]] + rest);
      made + Regions(t, open, close);
      Regions(s, open, close);
    }
  }

  /** At the end of the string the regions closed are all there are. */
  lemma BetweenDone(s: string, stack: seq<nat>, made: seq<string>, open: char, close: char)
    requires BetweenInv(s, |s|, stack, made, open, close)
    ensures made == Regions(s, open, close)
  {
    if stack != [] {
      RegionUnclosed(s[stack[0]..], open, close);
    } else {
      assert made + [] == made;
    }
  }

  // ---------------------------------------------------------------------------
  // The handler

  class PlaceholderHandler {
    /** `_current_placeholders`, oldest first. */
    var records: seq<Record>
    /** `_secure_index`: the position of the next secure character (59 means "reset first"). */
    var secureIndex: nat
    /** How many safe characters have been chosen so far. */
    var draws: nat
    /** The injected choice of safe characters, standing for `random.choice`. */
    const pick: nat -> nat

    ghost predicate Valid()
      reads this
    {
      secureIndex <= SecureCount && WellFormed(records)
    }

    constructor (pick: nat -> nat)
      ensures Valid() && records == [] && secureIndex == 0 && draws == 0 && this.pick == pick
    {
      records := [];
      secureIndex := 0;
      draws := 0;
      this.pick := pick;
    }

    /** The `d`-th safe character chosen. */
    function SafeAt(d: nat): (c: char)
      ensures IsSafeChar(c)
    {
      DefaultSafeChars[pick(d) % |DefaultSafeChars|]
    }

    /** The marker built from table position `slot` and the safe choices `d` .. `d + 7`. */
    function MarkerFor(slot: nat, d: nat): (m: string)
      requires slot < SecureCount
      ensures |m| == 9 && m[4] == SecureChar(slot)
    {
      [SafeAt(d), SafeAt(d + 1), SafeAt(d + 2), SafeAt(d + 3), SecureChar(slot),
       SafeAt(d + 4), SafeAt(d + 5), SafeAt(d + 6), SafeAt(d + 7)]
    }

    /** Every marker is four safe characters, a secure one, and four safe ones. */
    lemma MarkerShape(slot: nat, d: nat)
      requires slot < SecureCount
      ensures IsMarker(MarkerFor(slot, d))
    {
    }

    /** The marker made `k` markers after a handler with index `index` that had made `d` choices. */
    function NextMarker(index: nat, d: nat, k: nat): string
    {
      MarkerFor(Slot(IndexAfter(index, k)), d + 8 * k)
    }

    /**
     * The first 59 markers of a fresh handler are pairwise distinct, whatever
     * the safe characters drawn: each uses a secure character of its own.
     */
    lemma MarkersDistinct(d: nat, a: nat, b: nat)
      requires a < b < SecureCount
      ensures |NextMarker(0, d, a)| == |NextMarker(0, d, b)| == 9
      ensures NextMarker(0, d, a)[4] != NextMarker(0, d, b)[4]
    {
      IndexCounts(a);
      IndexCounts(b);
      SecureCharsDistinct(a, b);
    }

    /** `_get_new_placeholder` */
    method NewMarker() returns (m: string)
      requires Valid()
      modifies this`secureIndex, this`draws
      ensures Valid()
      ensures m == MarkerFor(Slot(old(secureIndex)), old(draws)) && IsMarker(m)
      ensures secureIndex == Advance(old(secureIndex)) && draws == old(draws) + 8
    {
      if secureIndex >= SecureCount {
        secureIndex := 0;
      }
      var slot := secureIndex;
      secureIndex := secureIndex + 1;
      m := MarkerFor(slot, draws);
      MarkerShape(slot, draws);
      draws := draws + 8;
    }

    /** `_revert_groups` */
    method RevertGroups(s: string, groups: set<nat>, ignore: bool) returns (r: string)
      ensures r == RevertAll(s, records, groups, ignore)
    {
      r := s;
      for k := 0 to |records|
        invariant r == RevertAll(s, records[..k], groups, ignore)
      {
        assert records[..k + 1][..k] == records[..k];
        var ph := records[k];
        if ph.group in groups && Contains(r, ph.name) {
          r := Replace(r, ph.name, Restored(ph, ignore));
        }
      }
      assert records[..|records|] == records;
    }

    /** `revert`: every group from 0 up to that of the most recent record. */
    method Revert(s: string, ignore: bool) returns (r: string)
      ensures records == [] ==> r == s
      ensures records != [] ==> r == RevertAll(s, records, UpTo(records[|records| - 1].group), ignore)
    {
      if |records| > 0 {
        var last := records[|records| - 1].group;
        r := RevertGroups(s, UpTo(last), ignore);
      } else {
        r := s;
      }
    }

    /** `revert_last`: only the group of the most recent record. */
    method RevertLast(s: string, ignore: bool) returns (r: string)
      ensures records == [] ==> r == s
      ensures records != [] ==> r == RevertAll(s, records, {records[|records| - 1].group}, ignore)
    {
      if |records| > 0 {
        var last := records[|records| - 1].group;
        r := RevertGroups(s, {last}, ignore);
      } else {
        r := s;
      }
    }

    /** `revert_group` */
    method RevertGroup(s: string, group: nat, ignore: bool) returns (r: string)
      ensures r == RevertAll(s, records, {group}, ignore)
    {
      r := RevertGroups(s, {group}, ignore);
    }

    /**
     * What one masking call did: starting from `oldRecords` and `oldDraws`
     * choices, records holding `hidden`, in order, were appended, all tagged
     * `group` and `kind`, with the next markers in turn; the secure index and
     * the choice count moved on accordingly.
     */
    ghost predicate Masked(rs: seq<Record>, index: nat, d: nat, oldRecords: seq<Record>, oldDraws: nat,
                           group: nat, kind: Kind, hidden: seq<string>)
    {
      && |rs| == |oldRecords| + |hidden|
      && rs[..|oldRecords|] == oldRecords
      && Hiddens(rs[|oldRecords|..]) == hidden
      && Made(rs, |oldRecords|, group, kind, oldDraws)
      && index == IndexAfter(group, |hidden|)
      && d == oldDraws + 8 * |hidden|
    }

    /** One more marker keeps the account of a masking call. */
    lemma MaskedStep(rs: seq<Record>, index: nat, d: nat, oldRecords: seq<Record>, oldDraws: nat,
                     group: nat, kind: Kind, hidden: seq<string>, rec: Record)
      requires Masked(rs, index, d, oldRecords, oldDraws, group, kind, hidden)
      requires rec.group == group && rec.kind == kind && rec.name == MarkerFor(Slot(index), d)
      ensures Masked(rs + [rec], Advance(index), d + 8, oldRecords, oldDraws, group, kind, hidden + [rec.hidden])
      ensures (rs + [rec])[|oldRecords|..] == rs[|oldRecords|..] + [rec]
    {
      var n := |oldRecords|;
      RecordsSnoc(rs, rec, n);
      NextMarkerAt(group, oldDraws, |hidden|, index, d);
      MadeSnoc(rs, n, rec, group, kind, oldDraws);
      HiddensSnoc(rs, n, rec, hidden);
    }

    /**
     * The records from `n` on were made by one masking call: all tagged
     * `group` and `kind`, the `j`-th of them with the `j`-th next marker.
     */
    ghost predicate Made(rs: seq<Record>, n: nat, group: nat, kind: Kind, d: nat) {
      forall k :: n <= k < |rs| ==> rs[k].group == group && rs[k].kind == kind && rs[k].name == NextMarker(group, d, k - n)
    }

    /** The records made by a masking call, one record longer. */
    lemma MadeSnoc(rs: seq<Record>, n: nat, rec: Record, group: nat, kind: Kind, d: nat)
      requires n <= |rs| && Made(rs, n, group, kind, d)
      requires rec.group == group && rec.kind == kind && rec.name == NextMarker(group, d, |rs| - n)
      ensures Made(rs + [rec], n, group, kind, d)
    {
      var longer := rs + [rec];
      forall k | n <= k < |longer|
        ensures longer[k].group == group && longer[k].kind == kind && longer[k].name == NextMarker(group, d, k - n)
      {
        if k < |rs| {
          assert longer[k] == rs[k];
        } else {
          assert longer[k] == rec;
        }
      }
    }

    /** The marker a handler makes next, in terms of where its masking call started. */
    lemma NextMarkerAt(group: nat, d: nat, m: nat, index: nat, e: nat)
      requires index == IndexAfter(group, m) && e == d + 8 * m
      ensures MarkerFor(Slot(index), e) == NextMarker(group, d, m)
    {
    }


    /** What one masking call did, stated on the handler's fields. */
    ghost predicate MaskedCall(oldRecords: seq<Record>, oldDraws: nat, group: nat, kind: Kind, hidden: seq<string>)
      reads this
    {
      Masked(records, secureIndex, draws, oldRecords, oldDraws, group, kind, hidden)
    }

    /** `substr`: every occurrence of `sub` behind one marker. */
    method Substr(s: string, sub: string) returns (r: string, group: nat)
      requires Valid()
      modifies this
      ensures Valid()
      ensures group == old(secureIndex)
      ensures MaskedCall(old(records), old(draws), group, Substring, [sub])
      ensures r == MaskAll(s, records[|old(records)|..])
    {
      group := secureIndex;
      assert records[|records|..] == [];
      r := MaskOne(s, sub, group, Substring, s, records, draws, []);
      assert [] + [sub] == [sub];
    }

    /**
     * One placeholder of a masking call: a new marker replaces every occurrence
     * of the text of `hidden` (with its identifying characters), and the record is kept.
     */
    method MaskOne(r: string, hidden: string, group: nat, kind: Kind,
                   ghost s: string, ghost oldRecords: seq<Record>, ghost oldDraws: nat, ghost made: seq<string>)
      returns (r': string)
      requires Valid() && group <= SecureCount
      requires MaskedCall(oldRecords, oldDraws, group, kind, made)
      requires r == MaskAll(s, records[|oldRecords|..])
      modifies this
      ensures Valid()
      ensures MaskedCall(oldRecords, oldDraws, group, kind, made + [hidden])
      ensures r' == MaskAll(s, records[|oldRecords|..])
    {
      ghost var before := records;
      ghost var index := secureIndex;
      ghost var d := draws;
      var m := NewMarker();
      var rec := Record(group, m, hidden, kind);
      MaskedStep(before, index, d, oldRecords, oldDraws, group, kind, made, rec);
      WellFormedSnoc(before, rec);
      MaskAllSnoc(s, before[|oldRecords|..], rec);
      r' := Replace(r, Restored(rec, false), m);
      records := records + [rec];
    }

    /** The scanning loop of `after`: the runs it collects in `to_placehold`. */
    method ScanAfter(s: string, idchar: char, stops: string, limit: int) returns (toPlacehold: seq<string>)
      ensures toPlacehold == RunsOf(s, idchar, stops, limit)
    {
      toPlacehold := [];
      var active := false;
      var plh: string := [];
      var count: int := 0;
      for i := 0 to |s|
        invariant AfterScan(s[i..], ScanState(active, plh, count, toPlacehold), idchar, stops, limit)
               == AfterScan(s, ScanStart, idchar, stops, limit)
      {
        ghost var st := ScanState(active, plh, count, toPlacehold);
        assert s[i..][1..] == s[i + 1..];
        var c := s[i];
        if active {
          count := count + 1;
          if c in stops || count > limit {
            active := false;
            toPlacehold := toPlacehold + [plh];
            plh := [];
            count := 0;
          } else {
            plh := plh + [c];
          }
        } else if c == idchar {
          active := true;
        }
        assert AfterStep(st, c, idchar, stops, limit) == ScanState(active, plh, count, toPlacehold);
      }
      if active {
        toPlacehold := toPlacehold + [plh];
      }
      AfterRunsAreRunsOf(s, idchar, stops, limit);
    }

    /** `after`: every run that follows `idchar`, up to the stop, behind a marker of its own. */
    method After(s: string, idchar: char, stop: Stop) returns (r: string, group: nat)
      requires Valid()
      modifies this
      ensures Valid()
      ensures group == old(secureIndex)
      ensures MaskedCall(old(records), old(draws), group, Kind.After(idchar),
                         RunsOf(s, idchar, StopChars(stop), StopLimit(stop)))
      ensures r == MaskAll(s, records[|old(records)|..])
    {
      group := secureIndex;
      var toPlacehold := ScanAfter(s, idchar, StopChars(stop), StopLimit(stop));
      ghost var oldRecords := records;
      ghost var oldDraws := draws;
      assert records[|oldRecords|..] == [];
      r := s;
      for j := 0 to |toPlacehold|
        invariant Valid() && group <= SecureCount
        invariant MaskedCall(oldRecords, oldDraws, group, Kind.After(idchar), toPlacehold[..j])
        invariant r == MaskAll(s, records[|oldRecords|..])
      {
        TakeSnoc(toPlacehold, j);
        r := MaskOne(r, toPlacehold[j], group, Kind.After(idchar), s, oldRecords, oldDraws, toPlacehold[..j]);
      }
      assert toPlacehold[..|toPlacehold|] == toPlacehold;
    }

    /**
     * One character of the loop of `between`: an opener while nothing is
     * pending is remembered, a closer while an opener is pending masks the
     * region between them, and anything else is skipped.
     */
    method BetweenStep(s: string, i: nat, open: char, close: char, group: nat, r: string, stack: seq<nat>,
                       ghost oldRecords: seq<Record>, ghost oldDraws: nat, ghost made: seq<string>)
      returns (r': string, stack': seq<nat>, ghost made': seq<string>)
      requires i < |s| && Valid() && group <= SecureCount
      requires BetweenInv(s, i, stack, made, open, close)
      requires MaskedCall(oldRecords, oldDraws, group, Kind.Between(open, close), made)
      requires r == MaskAll(s, records[|oldRecords|..])
      modifies this
      ensures Valid()
      ensures BetweenInv(s, i + 1, stack', made', open, close)
      ensures MaskedCall(oldRecords, oldDraws, group, Kind.Between(open, close), made')
      ensures r' == MaskAll(s, records[|oldRecords|..])
    {
      r', stack', made' := r, stack, made;
      if stack == [] && s[i] == open {
        BetweenOpen(s, i, made, open, close);
        stack' := [i];
      } else if stack != [] && s[i] == close {
        var start := stack[0];
        BetweenClose(s, i, start, made, open, close);
        stack' := [];
        var hidden := s[start + 1..i];
        r' := MaskOne(r, hidden, group, Kind.Between(open, close), s, oldRecords, oldDraws, made);
        made' := made + [hidden];
      } else {
        BetweenSkip(s, i, stack, made, open, close);
      }
    }

    /** `between`: every region from an opener to the next closer behind a marker of its own. */
    method Between(s: string, open: char, close: Option<char>) returns (r: string, group: nat)
      requires Valid()
      modifies this
      ensures Valid()
      ensures group == old(secureIndex)
      ensures MaskedCall(old(records), old(draws), group, Kind.Between(open, CloserOf(open, close)),
                         Regions(s, open, CloserOf(open, close)))
      ensures r == MaskAll(s, records[|old(records)|..])
    {
      group := secureIndex;
      var closeChar := if close.Some? then close.value else open;
      ghost var oldRecords := records;
      ghost var oldDraws := draws;
      var stack: seq<nat> := [];
      ghost var made: seq<string> := [];
      assert records[|oldRecords|..] == [];
      r := s;
      for i := 0 to |s|
        invariant Valid() && group <= SecureCount
        invariant BetweenInv(s, i, stack, made, open, closeChar)
        invariant MaskedCall(oldRecords, oldDraws, group, Kind.Between(open, closeChar), made)
        invariant r == MaskAll(s, records[|oldRecords|..])
      {
        r, stack, made := BetweenStep(s, i, open, closeChar, group, r, stack, oldRecords, oldDraws, made);
      }
      BetweenDone(s, stack, made, open, closeChar);
    }
  }

  /** Putting back a substring marker whose first character the string lacks undoes the masking. */
  lemma SubstrUndo(s: string, sub: string, rec: Record, groups: set<nat>)
    requires sub != [] && rec.hidden == sub && rec.kind == Substring && rec.group in groups
    requires rec.name != [] && rec.name[0] !in s
    ensures RevertStep(Replace(s, sub, rec.name), rec, groups, false) == s
  {
    var masked := Replace(s, sub, rec.name);
    ReplaceRoundTrip(s, sub, rec.name);
    if !Contains(masked, rec.name) {
      ReplaceAbsent(masked, rec.name, sub);
    }
  }

  /**
   * Masking a substring with a fresh handler and reverting everything gives
   * the string back, whatever the choices, when the string holds no safe character.
   */
  method SubstrRevertRoundTrip(s: string, sub: string, pick: nat -> nat) returns (r: string)
    requires sub != [] && forall k :: 0 <= k < |s| ==> !IsSafeChar(s[k])
    ensures r == s
  {
    var h := new PlaceholderHandler(pick);
    var masked, group := h.Substr(s, sub);
    r := h.Revert(masked, false);
    var rec := h.records[0];
    assert h.records == [rec] && rec.kind == Substring && rec.hidden == sub;
    assert IsSafeChar(rec.name[0]);
    assert h.records[..0] == [];
    SubstrUndo(s, sub, rec, {rec.group});
  }
}
