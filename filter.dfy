/**
 * BItext.py, second half: the filter that shows chosen strings in colour.
 * A `Matcher` follows one target string with a cursor `idx`; a
 * `MultiMatcher` feeds each character of a stream to its matchers and
 * writes to stdout whatever is not held back by a partial match.
 *
 * The value-level functions (`Advance`, `FindFrom`, `Feed`, `FeedAll`) say
 * what one call does to the matchers' state and what it writes, as a list of
 * `Piece`s; the classes `Matcher` and `MultiMatcher` are proved to do exactly
 * that. The lemmas prove the transcript property: the input seen so far is
 * what was written, with every coloured block read as its target, followed
 * by the prefix the active matcher still holds.
 */
module Filter {
  import opened Runtime
  import opened Text
  import opened Strings

  /** `DONE`, `STORING`, `NOMATCH`. */
  datatype Status = Done | Storing | NoMatch

  /** One write to stdout: characters passed through, or a completed target in colour. */
  datatype Piece = Plain(text: string) | Styled(target: string, style: Style)

  /** The characters of the pieces: as written (`decorated`), or with each coloured block read as its target. */
  function Emit(ps: seq<Piece>, decorated: bool): string
  {
    if |ps| == 0 then ""
    else
      var head := match ps[0]
        case Plain(t) => t
        case Styled(t, st) => if decorated then Decorate(st, t) else t;
      head + Emit(ps[1..], decorated)
  }

  /** What the pieces put on stdout. */
  function Render(ps: seq<Piece>): string
  {
    Emit(ps, true)
  }

  /** The plain-text reading of the pieces. */
  function Transcript(ps: seq<Piece>): string
  {
    Emit(ps, false)
  }

  lemma {:induction false} EmitConcat(a: seq<Piece>, b: seq<Piece>, decorated: bool)
    ensures Emit(a + b, decorated) == Emit(a, decorated) + Emit(b, decorated)
  {
    if |a| > 0 {
      assert (a + b)[0] == a[0] && (a + b)[1..] == a[1..] + b;
      EmitConcat(a[1..], b, decorated);
    } else {
      assert a + b == b;
    }
  }

  // ---------------------------------------------------------------------
  // One matcher

  /** The state of a `Matcher`: its target `string`, `slen`, `func`, `idx` and `_status`. */
  datatype MState = MState(target: string, slen: nat, style: Style, idx: nat, status: Status)

  /** The object invariant of a matcher: `slen` is the visible length and the cursor stays in range. */
  predicate Consistent(m: MState)
  {
    && m.slen == VisibleLength(m.target)
    && m.idx <= |m.target|
    && (m.slen > 0 ==> m.idx < m.slen)
  }

  /** What one `Matcher.match(ch)` does: the new state, the result, what it wrote. */
  datatype Advanced = Advanced(m: MState, accepted: bool, written: seq<Piece>)

  /**
   * `Matcher.match(ch)`. A character equal to `string[idx]` advances the
   * cursor; reaching `slen` writes the decorated target and resets. Any
   * other character writes the held prefix `string[0:idx]` (not `ch`) and
   * resets. A cursor past the end of the target raises IndexError.
   */
  function Advance(m: MState, ch: char): (r: Result<Advanced>)
    ensures r.Err? <==> m.idx >= |m.target|
    ensures r.Ok? ==> && r.value.m.target == m.target && r.value.m.slen == m.slen
                      && r.value.m.style == m.style
                      && r.value.accepted == (ch == m.target[m.idx])
  {
    if m.idx >= |m.target| then Err(IndexError)
    else if ch == m.target[m.idx] then
      if m.idx + 1 == m.slen then
        Ok(Advanced(m.(idx := 0, status := Done), true, [Styled(m.target, m.style)]))
      else
        Ok(Advanced(m.(idx := m.idx + 1, status := Storing), true, []))
    else
      Ok(Advanced(m.(idx := 0, status := NoMatch), false,
                  if m.idx > 0 then [Plain(m.target[..m.idx])] else []))
  }

  /** A call that does not raise keeps the matcher consistent. */
  lemma AdvanceConsistent(m: MState, ch: char)
    requires Consistent(m) && Advance(m, ch).Ok?
    ensures Consistent(Advance(m, ch).value.m)
  {
  }

  /** A call raises only on a target with no visible character, whose cursor ran off its end. */
  lemma AdvanceRaisesOnlyWithoutVisibleText(m: MState, ch: char)
    requires Consistent(m) && Advance(m, ch).Err?
    ensures m.slen == 0 && m.idx == |m.target|
  {
  }

  /**
   * The status an accepting call leaves is `DONE` exactly when the target
   * was completed and written, and `STORING` otherwise.
   */
  lemma AdvanceStatus(m: MState, ch: char)
    requires Consistent(m) && Advance(m, ch).Ok?
    ensures var a := Advance(m, ch).value;
            && (a.m.status == Done <==> a.accepted && m.idx + 1 == m.slen)
            && (a.m.status == Storing <==> a.accepted && m.idx + 1 != m.slen)
            && (a.m.status == NoMatch <==> !a.accepted)
            && (a.m.status == Done <==> a.written == [Styled(m.target, m.style)])
  {
  }

  // ---------------------------------------------------------------------
  // The dispatcher

  /** The state of a `MultiMatcher`: its matchers in order and the position of `active`. */
  datatype DState = DState(ms: seq<MState>, active: Option<nat>)

  predicate ActiveInRange(d: DState)
  {
    d.active.Some? ==> d.active.value < |d.ms|
  }

  /** What `findMatcher(ch)` does: the new matchers, the matcher returned, what was written. */
  datatype Scan = Scan(ms: seq<MState>, found: Option<nat>, written: seq<Piece>)

  /** Prepends earlier writes to a scan. */
  function Prefixed(acc: seq<Piece>, r: Result<Scan>): Result<Scan>
  {
    match r
    case Err(e) => Err(e)
    case Ok(sc) => Ok(sc.(written := acc + sc.written))
  }

  /**
   * `findMatcher(ch)` from position `k`: offers `ch` to each matcher in
   * declared order and returns the first that accepts it; the matchers
   * before it have rejected `ch` (and flushed whatever they held).
   */
  function FindFrom(ms: seq<MState>, ch: char, k: nat): (r: Result<Scan>)
    requires k <= |ms|
    ensures r.Ok? ==> |r.value.ms| == |ms|
    ensures r.Ok? && r.value.found.Some? ==> k <= r.value.found.value < |ms|
    decreases |ms| - k
  {
    if k == |ms| then Ok(Scan(ms, None, []))
    else
      match Advance(ms[k], ch)
      case Err(e) => Err(e)
      case Ok(a) =>
        if a.accepted then Ok(Scan(ms[k := a.m], Some(k), a.written))
        else Prefixed(a.written, FindFrom(ms[k := a.m], ch, k + 1))
  }

  /** One `MultiMatcher.match(ch)`: the new state and what it wrote. */
  datatype Fed = Fed(d: DState, written: seq<Piece>)

  /** The character itself, written when no matcher takes it. */
  function PassThrough(sc: Scan, ch: char): seq<Piece>
  {
    if sc.found.None? then [Plain([ch])] else []
  }

  /**
   * `MultiMatcher.match(ch)`. The active matcher sees `ch` first; if it
   * accepts, `active` is cleared once its target is complete (line 174
   * compares `_status` instead of assigning it, so only `active` changes).
   * If it rejects, or if none is active, `findMatcher` picks the next
   * active matcher; when none takes `ch` it is written through.
   */
  function Feed(d: DState, ch: char): (r: Result<Fed>)
    requires ActiveInRange(d)
    ensures r.Ok? ==> ActiveInRange(r.value.d) && |r.value.d.ms| == |d.ms|
  {
    match d.active
    case Some(a) =>
      (match Advance(d.ms[a], ch)
       case Err(e) => Err(e)
       case Ok(adv) =>
         var ms1 := d.ms[a := adv.m];
         if adv.accepted then
           Ok(Fed(DState(ms1, if adv.m.status == Done then None else Some(a)), adv.written))
         else
           match FindFrom(ms1, ch, 0)
           case Err(e) => Err(e)
           case Ok(sc) => Ok(Fed(DState(sc.ms, sc.found), adv.written + sc.written + PassThrough(sc, ch))))
    case None =>
      match FindFrom(d.ms, ch, 0)
      case Err(e) => Err(e)
      case Ok(sc) => Ok(Fed(DState(sc.ms, sc.found), sc.written + PassThrough(sc, ch)))
  }

  /** Feeding a whole string, one `match` call per character. */
  function FeedAll(d: DState, input: string): (r: Result<Fed>)
    requires ActiveInRange(d)
    ensures r.Ok? ==> ActiveInRange(r.value.d) && |r.value.d.ms| == |d.ms|
    decreases |input|
  {
    if |input| == 0 then Ok(Fed(d, []))
    else
      match Feed(d, input[0])
      case Err(e) => Err(e)
      case Ok(f) =>
        match FeedAll(f.d, input[1..])
        case Err(e) => Err(e)
        case Ok(g) => Ok(Fed(g.d, f.written + g.written))
  }

  /** Continues after `f` with the rest of the input, keeping what `f` wrote in front. */
  function Then(f: Fed, rest: string): (r: Result<Fed>)
    requires ActiveInRange(f.d)
  {
    match FeedAll(f.d, rest)
    case Err(e) => Err(e)
    case Ok(g) => Ok(Fed(g.d, f.written + g.written))
  }

  /**
   * Chunking does not matter: feeding `a + b` is feeding `a` and then `b`,
   * and what is written is what the two parts write, in order.
   */
  lemma {:induction false} FeedAllSplit(d: DState, a: string, b: string)
    requires ActiveInRange(d)
    decreases |a|
    ensures FeedAll(d, a + b) == match FeedAll(d, a)
                                 case Err(e) => Err(e)
                                 case Ok(f) => Then(f, b)
  {
    if |a| == 0 {
      assert a + b == b;
      assert Then(Fed(d, []), b) == FeedAll(d, b) by {
        match FeedAll(d, b)
        case Err(e) =>
        case Ok(g) => assert [] + g.written == g.written;
      }
    } else {
      assert (a + b)[0] == a[0] && (a + b)[1..] == a[1..] + b;
      match Feed(d, a[0])
      case Err(e) =>
      case Ok(f) =>
        FeedAllSplit(f.d, a[1..], b);
        match FeedAll(f.d, a[1..])
        case Err(e) =>
        case Ok(g) =>
          match FeedAll(g.d, b)
          case Err(e) =>
          case Ok(h) => assert f.written + g.written + h.written == f.written + (g.written + h.written);
    }
  }

  // ---------------------------------------------------------------------
  // The transcript invariant

  /** A target the transcript can be stated for: non-empty and free of escape characters. */
  predicate Clean(m: MState)
  {
    |m.target| >= 1 && ESC !in m.target
  }

  /** Two lists of matchers configured alike: same targets, lengths and styles. */
  predicate SameConfig(ms: seq<MState>, ns: seq<MState>)
  {
    && |ms| == |ns|
    && forall j :: 0 <= j < |ms| ==>
         ns[j].target == ms[j].target && ns[j].slen == ms[j].slen && ns[j].style == ms[j].style
  }

  /**
   * The dispatcher invariant: every matcher is consistent with a clean
   * target, and only the active matcher may hold a partial match.
   */
  predicate Inv(d: DState)
  {
    && ActiveInRange(d)
    && (forall j :: 0 <= j < |d.ms| ==> Consistent(d.ms[j]) && Clean(d.ms[j]))
    && (forall j :: 0 <= j < |d.ms| && d.active != Some(j) ==> d.ms[j].idx == 0)
  }

  /** The prefix of its target that the active matcher holds back. */
  function Held(d: DState): string
    requires Inv(d)
  {
    match d.active
    case None => ""
    case Some(a) => d.ms[a].target[..d.ms[a].idx]
  }

  /** The targets of the matchers. */
  function Targets(ms: seq<MState>): set<string>
  {
    set j | 0 <= j < |ms| :: ms[j].target
  }

  /** Every coloured piece is one of the given targets. */
  predicate StyledFrom(ps: seq<Piece>, targets: set<string>)
  {
    forall i :: 0 <= i < |ps| && ps[i].Styled? ==> ps[i].target in targets
  }

  /** A clean target's visible length is its length. */
  lemma CleanLength(m: MState)
    requires Consistent(m) && Clean(m)
    ensures m.slen == |m.target|
  {
    PrintablePlainPrefix(m.target, "");
    assert m.target + "" == m.target;
  }

  /** Does the target start with `ch`? */
  predicate StartsWith(m: MState, ch: char)
  {
    |m.target| > 0 && m.target[0] == ch
  }

  /** Matchers that are consistent, clean and idle. */
  predicate AllIdle(ms: seq<MState>)
  {
    forall j :: 0 <= j < |ms| ==> Consistent(ms[j]) && Clean(ms[j]) && ms[j].idx == 0
  }

  lemma EmitOne(p: Piece, decorated: bool)
    ensures Emit([p], decorated) == match p
                                    case Plain(t) => t
                                    case Styled(t, st) => if decorated then Decorate(st, t) else t
  {
    assert [p][1..] == [];
  }

  /**
   * `findMatcher` over idle clean matchers never raises; it keeps the
   * configuration, leaves every matcher but the one found idle, and writes
   * nothing unless the target found is a single character, which it writes
   * in colour.
   */
  lemma {:induction false} FindIdle(ms: seq<MState>, ch: char, k: nat)
    requires k <= |ms| && AllIdle(ms)
    ensures FindFrom(ms, ch, k).Ok?
    ensures var sc := FindFrom(ms, ch, k).value;
            && SameConfig(ms, sc.ms)
            && (forall j :: 0 <= j < |ms| ==> Consistent(sc.ms[j]))
            && (forall j :: 0 <= j < |ms| && sc.found != Some(j) ==> sc.ms[j].idx == 0)
            && (sc.found.None? ==> sc.written == [])
            && (sc.found.Some? ==>
                  var f := sc.found.value;
                  && sc.ms[f].idx == (if ms[f].slen == 1 then 0 else 1)
                  && sc.written == (if ms[f].slen == 1 then [Styled(ms[f].target, ms[f].style)] else []))
    decreases |ms| - k
  {
    if k < |ms| {
      if StartsWith(ms[k], ch) {
        IdleAccepts(ms, ch, k);
        CleanLength(ms[k]);
      } else {
        IdleRejects(ms, ch, k);
        FindIdle(ms[k := ms[k].(status := NoMatch)], ch, k + 1);
      }
    }
  }

  /** An idle matcher whose target starts with `ch` takes it, and the scan stops there. */
  lemma IdleAccepts(ms: seq<MState>, ch: char, k: nat)
    requires k < |ms| && AllIdle(ms) && StartsWith(ms[k], ch)
    ensures var m := ms[k];
            var m' := if m.slen == 1 then m.(status := Done) else m.(idx := 1, status := Storing);
            FindFrom(ms, ch, k) == Ok(Scan(ms[k := m'], Some(k), if m.slen == 1 then [Styled(m.target, m.style)] else []))
  {
    CleanLength(ms[k]);
    FindFromStep(ms, ch, k);
  }

  /** An idle matcher whose target does not start with `ch` rejects it, writing nothing. */
  lemma IdleRejects(ms: seq<MState>, ch: char, k: nat)
    requires k < |ms| && AllIdle(ms) && !StartsWith(ms[k], ch)
    ensures var ms1 := ms[k := ms[k].(status := NoMatch)];
            && AllIdle(ms1) && SameConfig(ms, ms1)
            && FindFrom(ms, ch, k) == FindFrom(ms1, ch, k + 1)
  {
    CleanLength(ms[k]);
    FindFromStep(ms, ch, k);
    PrefixedEmpty(FindFrom(ms[k := ms[k].(status := NoMatch)], ch, k + 1));
  }

  /**
   * ... and the matcher it finds is the first, in declared order, whose
   * target starts with `ch`; when none does, it finds none.
   */
  lemma {:induction false} FindIdleFirst(ms: seq<MState>, ch: char, k: nat)
    requires k <= |ms| && AllIdle(ms)
    ensures FindFrom(ms, ch, k).Ok?
    ensures var sc := FindFrom(ms, ch, k).value;
            && (sc.found.None? ==> forall j :: k <= j < |ms| ==> !StartsWith(ms[j], ch))
            && (sc.found.Some? ==>
                  && StartsWith(ms[sc.found.value], ch)
                  && forall j :: k <= j < sc.found.value ==> !StartsWith(ms[j], ch))
    decreases |ms| - k
  {
    FindIdle(ms, ch, k);
    if k < |ms| {
      if StartsWith(ms[k], ch) {
        IdleAccepts(ms, ch, k);
      } else {
        IdleRejects(ms, ch, k);
        FindIdleFirst(ms[k := ms[k].(status := NoMatch)], ch, k + 1);
      }
    }
  }

  /** What one idle scan contributes to the transcript, and the state it leaves. */
  lemma FindResult(ms: seq<MState>, ch: char)
    requires AllIdle(ms)
    ensures FindFrom(ms, ch, 0).Ok?
    ensures var sc := FindFrom(ms, ch, 0).value;
            var d1 := DState(sc.ms, sc.found);
            var out := sc.written + PassThrough(sc, ch);
            && Inv(d1) && SameConfig(ms, sc.ms)
            && [ch] == Transcript(out) + Held(d1)
            && StyledFrom(out, Targets(ms))
  {
    FindIdle(ms, ch, 0);
    FindIdleFirst(ms, ch, 0);
    var sc := FindFrom(ms, ch, 0).value;
    var d1 := DState(sc.ms, sc.found);
    var out := sc.written + PassThrough(sc, ch);
    assert forall j :: 0 <= j < |ms| ==> Clean(sc.ms[j]);
    match sc.found
    case None =>
      assert out == [Plain([ch])];
      EmitOne(Plain([ch]), false);
    case Some(f) =>
      CleanLength(ms[f]);
      assert out == sc.written;
      assert ms[f].target in Targets(ms);
      if ms[f].slen == 1 {
        assert ms[f].target == [ch];
        EmitOne(Styled(ms[f].target, ms[f].style), false);
      } else {
        assert sc.ms[f].target[..1] == [ch];
      }
  }

  /** Matchers configured alike have the same targets. */
  lemma SameConfigTargets(ms: seq<MState>, ns: seq<MState>)
    requires SameConfig(ms, ns)
    ensures Targets(ms) == Targets(ns)
  {
    forall t | t in Targets(ms) ensures t in Targets(ns) {
      var j :| 0 <= j < |ms| && ms[j].target == t;
      assert ns[j].target == t;
    }
    forall t | t in Targets(ns) ensures t in Targets(ms) {
      var j :| 0 <= j < |ns| && ns[j].target == t;
      assert ms[j].target == t;
    }
  }

  /** The active matcher takes `ch` (the accepting half of `FeedStep`). */
  lemma FeedActiveAccepts(d: DState, ch: char)
    requires Inv(d) && d.active.Some?
    requires Advance(d.ms[d.active.value], ch).Ok?
    requires Advance(d.ms[d.active.value], ch).value.accepted
    ensures Feed(d, ch).Ok?
    ensures var f := Feed(d, ch).value;
            && Inv(f.d) && SameConfig(d.ms, f.d.ms)
            && Held(d) + [ch] == Transcript(f.written) + Held(f.d)
            && StyledFrom(f.written, Targets(d.ms))
  {
    var a := d.active.value;
    var m := d.ms[a];
    CleanLength(m);
    var adv := Advance(m, ch).value;
    var f := Feed(d, ch).value;
    assert f.d.ms == d.ms[a := adv.m];
    assert m.target[..m.idx] + [ch] == m.target[..m.idx + 1];
    if m.idx + 1 == m.slen {
      assert m.target[..m.idx + 1] == m.target;
      EmitOne(Styled(m.target, m.style), false);
      assert m.target in Targets(d.ms);
    } else {
      assert f.written == [];
    }
  }

  /** The active matcher rejects `ch` (the flushing half of `FeedStep`). */
  lemma FeedActiveRejects(d: DState, ch: char)
    requires Inv(d) && d.active.Some?
    requires Advance(d.ms[d.active.value], ch).Ok?
    requires !Advance(d.ms[d.active.value], ch).value.accepted
    ensures Feed(d, ch).Ok?
    ensures var f := Feed(d, ch).value;
            && Inv(f.d) && SameConfig(d.ms, f.d.ms)
            && Held(d) + [ch] == Transcript(f.written) + Held(f.d)
            && StyledFrom(f.written, Targets(d.ms))
  {
    var a := d.active.value;
    var adv := Advance(d.ms[a], ch).value;
    var ms1 := d.ms[a := adv.m];
    RejectFlushes(d, ch);
    FindResult(ms1, ch);
    SameConfigTargets(d.ms, ms1);
    var sc := FindFrom(ms1, ch, 0).value;
    var out := sc.written + PassThrough(sc, ch);
    var f := Feed(d, ch).value;
    assert f.written == adv.written + out;
    EmitConcat(adv.written, out, false);
    StyledAfterPlain(adv.written, out, Targets(d.ms));
    var t1, t2, h := Transcript(adv.written), Transcript(out), Held(f.d);
    assert Held(d) + [ch] == t1 + (t2 + h);
    assert t1 + (t2 + h) == (t1 + t2) + h;
  }

  /** A rejecting active matcher writes what it held, as plain text, and leaves every matcher idle. */
  lemma RejectFlushes(d: DState, ch: char)
    requires Inv(d) && d.active.Some?
    requires Advance(d.ms[d.active.value], ch).Ok?
    requires !Advance(d.ms[d.active.value], ch).value.accepted
    ensures var a := d.active.value;
            var adv := Advance(d.ms[a], ch).value;
            var ms1 := d.ms[a := adv.m];
            && AllIdle(ms1) && SameConfig(d.ms, ms1)
            && Transcript(adv.written) == Held(d)
            && (forall i :: 0 <= i < |adv.written| ==> adv.written[i].Plain?)
  {
    var a := d.active.value;
    var m := d.ms[a];
    CleanLength(m);
    var adv := Advance(m, ch).value;
    if m.idx > 0 {
      EmitOne(Plain(m.target[..m.idx]), false);
    }
  }

  /** Plain pieces followed by pieces coloured from `targets` are coloured from `targets`. */
  lemma StyledAfterPlain(a: seq<Piece>, b: seq<Piece>, targets: set<string>)
    requires forall i :: 0 <= i < |a| ==> a[i].Plain?
    requires StyledFrom(b, targets)
    ensures StyledFrom(a + b, targets)
  {
    assert forall i :: |a| <= i < |a + b| ==> (a + b)[i] == b[i - |a|];
  }

  /**
   * One step keeps the invariant and the configuration, never raises, and
   * its transcript accounts for the new character: what was held, plus
   * `ch`, is what was written (read as plain text) plus what is held now.
   */
  lemma FeedStep(d: DState, ch: char)
    requires Inv(d)
    ensures Feed(d, ch).Ok?
    ensures var f := Feed(d, ch).value;
            && Inv(f.d) && SameConfig(d.ms, f.d.ms)
            && Held(d) + [ch] == Transcript(f.written) + Held(f.d)
            && StyledFrom(f.written, Targets(d.ms))
  {
    match d.active
    case Some(a) =>
      CleanLength(d.ms[a]);
      if Advance(d.ms[a], ch).value.accepted {
        FeedActiveAccepts(d, ch);
      } else {
        FeedActiveRejects(d, ch);
      }
    case None =>
      assert AllIdle(d.ms);
      FindResult(d.ms, ch);
  }

  /** Transcript of two consecutive stretches of feeding. */
  lemma TranscriptSteps(h0: string, c: char, rest: string, w1: seq<Piece>, h1: string, w2: seq<Piece>, h2: string)
    requires h0 + [c] == Transcript(w1) + h1
    requires h1 + rest == Transcript(w2) + h2
    ensures h0 + ([c] + rest) == Transcript(w1 + w2) + h2
  {
    EmitConcat(w1, w2, false);
    calc {
      h0 + ([c] + rest);
      (h0 + [c]) + rest;
      Transcript(w1) + h1 + rest;
      Transcript(w1) + (h1 + rest);
    }
  }

  /**
   * Feeding a whole string never raises, keeps the invariant and the
   * configuration, and accounts for every character: held before, plus
   * the input, equals the plain-text reading of what was written plus what
   * is held at the end. Every coloured block is a configured target.
   */
  lemma {:induction false} FeedAllTranscript(d: DState, input: string)
    requires Inv(d)
    ensures FeedAll(d, input).Ok?
    ensures var f := FeedAll(d, input).value;
            && Inv(f.d) && SameConfig(d.ms, f.d.ms)
            && Held(d) + input == Transcript(f.written) + Held(f.d)
            && StyledFrom(f.written, Targets(d.ms))
    decreases |input|
  {
    if |input| > 0 {
      FeedStep(d, input[0]);
      var f := Feed(d, input[0]).value;
      FeedAllTranscript(f.d, input[1..]);
      var g := FeedAll(f.d, input[1..]).value;
      SameConfigTargets(d.ms, f.d.ms);
      TranscriptSteps(Held(d), input[0], input[1..], f.written, Held(f.d), g.written, Held(g.d));
      assert [input[0]] + input[1..] == input;
      assert FeedAll(d, input).value == Fed(g.d, f.written + g.written);
    } else {
      assert Transcript([]) == "";
    }
  }


  /**
   * From freshly built matchers with clean targets: the input is what was
   * written, coloured blocks read as their targets, followed by the held
   * prefix; at most the active matcher holds one.
   */
  lemma FromStart(ms: seq<MState>, input: string)
    requires AllIdle(ms)
    ensures FeedAll(DState(ms, None), input).Ok?
    ensures var f := FeedAll(DState(ms, None), input).value;
            && Inv(f.d) && input == Transcript(f.written) + Held(f.d)
            && (forall j :: 0 <= j < |ms| && f.d.ms[j].idx > 0 ==> f.d.active == Some(j))
            && StyledFrom(f.written, Targets(ms))
  {
    FeedAllTranscript(DState(ms, None), input);
    assert "" + input == input;
  }
  /** Every coloured block's target occurs in the plain-text reading of the pieces. */
  lemma {:induction false} StyledOccurs(ps: seq<Piece>, i: nat)
    requires i < |ps| && ps[i].Styled?
    ensures Occurs(ps[i].target, Transcript(ps))
    decreases i
  {
    var rest := Transcript(ps[1..]);
    if i == 0 {
      var t := ps[0].target;
      assert Transcript(ps) == t + rest;
      assert t <= (t + rest)[0..];
    } else {
      StyledOccurs(ps[1..], i - 1);
      assert ps[1..][i - 1] == ps[i];
      var head := Transcript([ps[0]]);
      assert Transcript(ps) == head + rest by {
        EmitOne(ps[0], false);
      }
      OccursWithin(ps[i].target, head, rest, "");
    }
  }

  /** Every coloured block's target occurs in an input the pieces account for. */
  lemma StyledOccurInInput(ps: seq<Piece>, held: string, input: string)
    requires Transcript(ps) + held == input
    ensures forall i :: 0 <= i < |ps| && ps[i].Styled? ==> Occurs(ps[i].target, input)
  {
    forall i | 0 <= i < |ps| && ps[i].Styled?
      ensures Occurs(ps[i].target, input)
    {
      StyledOccurs(ps, i);
      OccursWithin(ps[i].target, "", Transcript(ps), held);
    }
  }

  /** Pieces without colour put on stdout exactly their plain-text reading. */
  lemma {:induction false} PlainRendersTranscript(ps: seq<Piece>)
    requires forall i :: 0 <= i < |ps| ==> ps[i].Plain?
    ensures Render(ps) == Transcript(ps)
  {
    if |ps| > 0 {
      PlainRendersTranscript(ps[1..]);
    }
  }

  /**
   * When no target occurs anywhere in the input, the filter never raises,
   * colours nothing, and what it writes followed by what it still holds is
   * the input itself.
   */
  lemma NoOccurrencePassesThrough(ms: seq<MState>, input: string)
    requires AllIdle(ms)
    requires forall j :: 0 <= j < |ms| ==> !Occurs(ms[j].target, input)
    ensures FeedAll(DState(ms, None), input).Ok?
    ensures var f := FeedAll(DState(ms, None), input).value;
            && Inv(f.d)
            && (forall i :: 0 <= i < |f.written| ==> f.written[i].Plain?)
            && Render(f.written) + Held(f.d) == input
  {
    FromStart(ms, input);
    var f := FeedAll(DState(ms, None), input).value;
    StyledOccurInInput(f.written, Held(f.d), input);
    PlainRendersTranscript(f.written);
  }

  /** A target without escapes is as long as it shows. */
  lemma PlainVisibleLength(t: string)
    requires ESC !in t
    ensures VisibleLength(t) == |t|
  {
    PrintablePlainPrefix(t, "");
    assert t + "" == t;
  }

  /**
   * A matcher that has accepted the first `i` characters of its target, fed
   * the rest of the target as the active matcher, writes the target in its
   * colour, goes idle and leaves the dispatcher with none active.
   */
  lemma {:induction false} WholeTargetRest(t: string, st: Style, i: nat)
    requires 1 <= i < |t|
    ensures var r := FeedAll(DState([MState(t, |t|, st, i, Storing)], Some(0)), t[i..]);
            && r.Ok? && r.value.written == [Styled(t, st)]
            && r.value.d.active.None? && r.value.d.ms[0].idx == 0
    decreases |t| - i
  {
    var m := MState(t, |t|, st, i, Storing);
    var d := DState([m], Some(0));
    assert t[i..][0] == t[i] && t[i..][1..] == t[i + 1..];
    if i + 1 == |t| {
      var m' := m.(idx := 0, status := Done);
      assert [m][0 := m'] == [m'];
      assert Feed(d, t[i]) == Ok(Fed(DState([m'], None), [Styled(t, st)]));
      assert t[i + 1..] == [];
      assert FeedAll(DState([m'], None), t[i + 1..]) == Ok(Fed(DState([m'], None), []));
      assert FeedAll(d, t[i..]) == Ok(Fed(DState([m'], None), [Styled(t, st)] + []));
    } else {
      var m' := m.(idx := i + 1, status := Storing);
      assert [m][0 := m'] == [m'];
      assert Feed(d, t[i]) == Ok(Fed(DState([m'], Some(0)), []));
      WholeTargetRest(t, st, i + 1);
      var g := FeedAll(DState([m'], Some(0)), t[i + 1..]).value;
      assert FeedAll(d, t[i..]) == Ok(Fed(g.d, [] + g.written));
    }
  }

  /**
   * Feeding a fresh matcher exactly its target writes one coloured block:
   * the decorated target, whose visible length is the target's length.
   */
  lemma WholeTarget(t: string, st: Style)
    requires |t| >= 1 && ESC !in t
    ensures var r := FeedAll(DState([MState(t, VisibleLength(t), st, 0, NoMatch)], None), t);
            && r.Ok? && r.value.written == [Styled(t, st)]
            && Render(r.value.written) == Decorate(st, t)
            && VisibleLength(Render(r.value.written)) == |t|
  {
    PlainVisibleLength(t);
    if |t| == 1 {
      WholeSingle(t, st);
    } else {
      WholeLonger(t, st);
    }
    EmitOne(Styled(t, st), true);
  }

  /** A one-character target completes on its first character, and its matcher stays active. */
  lemma WholeSingle(t: string, st: Style)
    requires |t| == 1
    ensures var r := FeedAll(DState([MState(t, |t|, st, 0, NoMatch)], None), t);
            r.Ok? && r.value.written == [Styled(t, st)]
  {
    var m := MState(t, |t|, st, 0, NoMatch);
    var m' := m.(idx := 0, status := Done);
    assert [m][0 := m'] == [m'];
    assert FindFrom([m], t[0], 0) == Ok(Scan([m'], Some(0), [Styled(t, st)]));
    var w: seq<Piece> := [];
    assert Feed(DState([m], None), t[0]) == Ok(Fed(DState([m'], Some(0)), [Styled(t, st)] + w));
    assert t[1..] == [];
    assert FeedAll(DState([m'], Some(0)), t[1..]) == Ok(Fed(DState([m'], Some(0)), w));
    assert [Styled(t, st)] + w + w == [Styled(t, st)];
    assert FeedAll(DState([m], None), t) == Ok(Fed(DState([m'], Some(0)), [Styled(t, st)] + w + w));
  }

  /** A longer target is taken up by its first character and completed by the rest. */
  lemma WholeLonger(t: string, st: Style)
    requires |t| > 1
    ensures var r := FeedAll(DState([MState(t, |t|, st, 0, NoMatch)], None), t);
            r.Ok? && r.value.written == [Styled(t, st)]
  {
    var m := MState(t, |t|, st, 0, NoMatch);
    var m' := m.(idx := 1, status := Storing);
    assert [m][0 := m'] == [m'];
    assert FindFrom([m], t[0], 0) == Ok(Scan([m'], Some(0), []));
    var w: seq<Piece> := [];
    assert Feed(DState([m], None), t[0]) == Ok(Fed(DState([m'], Some(0)), w + w));
    WholeTargetRest(t, st, 1);
    var g := FeedAll(DState([m'], Some(0)), t[1..]).value;
    assert w + w + g.written == g.written;
    assert FeedAll(DState([m], None), t) == Ok(Fed(g.d, w + w + g.written));
  }

  // ---------------------------------------------------------------------
  // Single steps, unfolded

  /** What the pass-through writes: `ch` exactly when no matcher took it. */
  lemma PassThroughWritten(sc: Scan, ch: char, none: bool)
    requires none == sc.found.None?
    ensures Render(PassThrough(sc, ch)) == if none then [ch] else ""
  {
    if none {
      EmitOne(Plain([ch]), true);
    }
  }

  /** `Feed` when no matcher is active. */
  lemma FeedIdle(d: DState, ch: char)
    requires d.active.None?
    ensures var s := FindFrom(d.ms, ch, 0);
            && (s.Err? ==> Feed(d, ch) == Err(s.error))
            && (s.Ok? ==> Feed(d, ch) == Ok(Fed(DState(s.value.ms, s.value.found), s.value.written + PassThrough(s.value, ch))))
  {
  }

  /** `Feed` when the active matcher accepts `ch`. */
  lemma FeedAccepted(d: DState, ch: char, adv: Advanced)
    requires ActiveInRange(d) && d.active.Some?
    requires Advance(d.ms[d.active.value], ch) == Ok(adv) && adv.accepted
    ensures Feed(d, ch) == Ok(Fed(DState(d.ms[d.active.value := adv.m],
                                         if adv.m.status == Done then None else d.active), adv.written))
  {
  }

  /** `Feed` when the active matcher rejects `ch`. */
  lemma FeedRejected(d: DState, ch: char, adv: Advanced)
    requires ActiveInRange(d) && d.active.Some?
    requires Advance(d.ms[d.active.value], ch) == Ok(adv) && !adv.accepted
    ensures var s := FindFrom(d.ms[d.active.value := adv.m], ch, 0);
            && (s.Err? ==> Feed(d, ch) == Err(s.error))
            && (s.Ok? ==> Feed(d, ch) == Ok(Fed(DState(s.value.ms, s.value.found),
                                                adv.written + s.value.written + PassThrough(s.value, ch))))
  {
  }

  /** One step of `FindFrom`: the matcher at `k` raises, accepts, or passes on to `k + 1`. */
  lemma FindFromStep(ms: seq<MState>, ch: char, k: nat)
    requires k < |ms|
    ensures var a := Advance(ms[k], ch);
            && (a.Err? ==> FindFrom(ms, ch, k) == Err(a.error))
            && (a.Ok? && a.value.accepted ==> FindFrom(ms, ch, k) == Ok(Scan(ms[k := a.value.m], Some(k), a.value.written)))
            && (a.Ok? && !a.value.accepted ==> FindFrom(ms, ch, k) == Prefixed(a.value.written, FindFrom(ms[k := a.value.m], ch, k + 1)))
  {
  }

  /** Prepending nothing changes nothing. */
  lemma PrefixedEmpty(r: Result<Scan>)
    ensures Prefixed([], r) == r
  {
    match r
    case Err(e) =>
    case Ok(sc) => assert [] + sc.written == sc.written;
  }

  /** Earlier writes prepended twice are prepended once, concatenated. */
  lemma PrefixedTwice(acc: seq<Piece>, w: seq<Piece>, r: Result<Scan>)
    ensures Prefixed(acc, Prefixed(w, r)) == Prefixed(acc + w, r)
  {
    match r
    case Err(e) =>
    case Ok(sc) => assert acc + (w + sc.written) == acc + w + sc.written;
  }

  // ---------------------------------------------------------------------
  // Nothing to highlight

  /** No target starts with any character of `s`. */
  predicate NoneStart(ms: seq<MState>, s: string)
  {
    forall i, j :: 0 <= i < |s| && 0 <= j < |ms| ==> !StartsWith(ms[j], s[i])
  }

  /** Idle matchers whose targets are not empty, so that a call cannot raise. */
  predicate Ready(ms: seq<MState>)
  {
    forall j :: 0 <= j < |ms| ==> ms[j].idx == 0 && |ms[j].target| > 0
  }

  /** A scan in which no matcher takes `c` finds nothing and writes nothing. */
  lemma {:induction false} FindNone(ms: seq<MState>, c: char, k: nat)
    requires k <= |ms| && Ready(ms)
    requires forall j :: k <= j < |ms| ==> !StartsWith(ms[j], c)
    ensures FindFrom(ms, c, k).Ok?
    ensures var sc := FindFrom(ms, c, k).value;
            sc.found.None? && sc.written == [] && SameConfig(ms, sc.ms) && Ready(sc.ms)
    decreases |ms| - k
  {
    if k < |ms| {
      var a := Advance(ms[k], c).value;
      var ms1 := ms[k := a.m];
      FindNone(ms1, c, k + 1);
      PrefixedEmpty(FindFrom(ms1, c, k + 1));
    }
  }

  /**
   * When no character of the input starts a target, the filter never
   * raises, nothing becomes active, and the output is the input itself.
   */
  lemma {:induction false} NothingToHighlight(d: DState, s: string)
    requires d.active.None? && Ready(d.ms) && NoneStart(d.ms, s)
    ensures FeedAll(d, s).Ok?
    ensures var f := FeedAll(d, s).value;
            && f.d.active.None? && Ready(f.d.ms) && SameConfig(d.ms, f.d.ms)
            && Render(f.written) == s
    decreases |s|
  {
    if |s| > 0 {
      QuietStep(d, s[0]);
      var f := Feed(d, s[0]).value;
      NoneStartKept(d.ms, f.d.ms, s);
      NothingToHighlight(f.d, s[1..]);
      var g := FeedAll(f.d, s[1..]).value;
      assert FeedAll(d, s).value == Fed(g.d, f.written + g.written);
      PassedThrough(s, f.written, g.written);
    }
  }

  /** A character written through as plain text, followed by output that renders the rest. */
  lemma PassedThrough(s: string, w1: seq<Piece>, w2: seq<Piece>)
    requires |s| > 0 && w1 == [Plain([s[0]])] && Render(w2) == s[1..]
    ensures Render(w1 + w2) == s
  {
    EmitConcat(w1, w2, true);
    EmitOne(Plain([s[0]]), true);
    assert [s[0]] + s[1..] == s;
  }

  /** One character that starts no target passes through as plain text. */
  lemma QuietStep(d: DState, c: char)
    requires d.active.None? && Ready(d.ms)
    requires forall j :: 0 <= j < |d.ms| ==> !StartsWith(d.ms[j], c)
    ensures Feed(d, c).Ok?
    ensures var f := Feed(d, c).value;
            && f.written == [Plain([c])]
            && f.d.active.None? && Ready(f.d.ms) && SameConfig(d.ms, f.d.ms)
  {
    FeedIdle(d, c);
    FindNone(d.ms, c, 0);
  }

  /** The rest of the input still starts no target of an unchanged configuration. */
  lemma NoneStartKept(ms: seq<MState>, ns: seq<MState>, s: string)
    requires |s| > 0 && NoneStart(ms, s) && SameConfig(ms, ns)
    ensures NoneStart(ns, s[1..])
    ensures forall j :: 0 <= j < |ms| ==> !StartsWith(ms[j], s[0])
  {
    assert forall i :: 0 <= i < |s[1..]| ==> s[1..][i] == s[i + 1];
  }
}

module FilterExamples {
  import opened Runtime
  import opened Text
  import opened Filter

  /** A freshly built matcher for `t`. */
  function Idle(t: string, st: Style): (m: MState)
    ensures Consistent(m) || VisibleLength(t) == 0
  {
    MState(t, VisibleLength(t), st, 0, NoMatch)
  }

  /** Fresh matchers for `targets`, all in one style. */
  function Fresh(targets: seq<string>, st: Style): (ms: seq<MState>)
    ensures |ms| == |targets|
  {
    if |targets| == 0 then [] else [Idle(targets[0], st)] + Fresh(targets[1..], st)
  }

  /** What feeding `input` to fresh matchers for `targets` writes, if it does not raise. */
  function Output(targets: seq<string>, st: Style, input: string): Result<string>
  {
    match FeedAll(DState(Fresh(targets, st), None), input)
    case Err(e) => Err(e)
    case Ok(f) => Ok(Render(f.written))
  }

  /** The visible length of a target without escape characters is its length. */
  lemma PlainLength(t: string)
    requires ESC !in t
    ensures VisibleLength(t) == |t|
  {
    PrintablePlainPrefix(t, "");
    assert t + "" == t;
  }

  /** Feeding `c` and then `rest` (one unfolding of `FeedAll`). */
  lemma Step(d: DState, s: string, f: Fed, g: Fed)
    requires |s| > 0 && ActiveInRange(d) && Feed(d, s[0]) == Ok(f) && FeedAll(f.d, s[1..]) == Ok(g)
    ensures FeedAll(d, s) == Ok(Fed(g.d, f.written + g.written))
  {
  }

  /** The end of the input. */
  lemma Stop(d: DState)
    requires ActiveInRange(d)
    ensures FeedAll(d, "") == Ok(Fed(d, []))
  {
  }

  /** The three steps of "cat" against the targets "cat" and "catalog". */
  lemma CatSteps(st: Style, a0: MState, b0: MState)
    requires a0 == MState("cat", 3, st, 0, NoMatch) && b0 == MState("catalog", 7, st, 0, NoMatch)
    ensures Feed(DState([a0, b0], None), 'c') == Ok(Fed(DState([a0.(idx := 1, status := Storing), b0], Some(0)), []))
    ensures Feed(DState([a0.(idx := 1, status := Storing), b0], Some(0)), 'a')
         == Ok(Fed(DState([a0.(idx := 2, status := Storing), b0], Some(0)), []))
    ensures Feed(DState([a0.(idx := 2, status := Storing), b0], Some(0)), 't')
         == Ok(Fed(DState([a0.(status := Done), b0], None), [Styled("cat", st)]))
  {
    var e: seq<Piece> := [];
    var d0 := DState([a0, b0], None);
    var d1 := DState([a0.(idx := 1, status := Storing), b0], Some(0));
    var d2 := DState([a0.(idx := 2, status := Storing), b0], Some(0));
    var d3 := DState([a0.(status := Done), b0], None);
    assert "cat"[0] == 'c' && "cat"[1] == 'a' && "cat"[2] == 't';
    FeedIdle(d0, 'c');
    FindFromStep(d0.ms, 'c', 0);
    assert d0.ms[0 := d1.ms[0]] == d1.ms;
    assert PassThrough(Scan(d1.ms, Some(0), e), 'c') == e && e + e == e;
    FeedAccepted(d1, 'a', Advanced(d2.ms[0], true, e));
    assert d1.ms[0 := d2.ms[0]] == d2.ms;
    FeedAccepted(d2, 't', Advanced(d3.ms[0], true, [Styled("cat", st)]));
    assert d2.ms[0 := d3.ms[0]] == d3.ms;
  }

  /** After "cat" has been written, "alog" passes through. */
  lemma CatTail(st: Style, a0: MState, b0: MState)
    requires a0 == MState("cat", 3, st, 0, NoMatch) && b0 == MState("catalog", 7, st, 0, NoMatch)
    ensures var r := FeedAll(DState([a0.(status := Done), b0], None), "alog");
            r.Ok? && Render(r.value.written) == "alog"
  {
    var d3 := DState([a0.(status := Done), b0], None);
    assert "cat"[0] == 'c' && "catalog"[0] == 'c';
    assert NoneStart(d3.ms, "alog");
    NothingToHighlight(d3, "alog");
  }

  /** Feeding "catalog" to the idle targets "cat" and "catalog": "cat", then whatever "alog" brings. */
  lemma CatPrefix(st: Style, a0: MState, b0: MState, g: Fed)
    requires a0 == MState("cat", 3, st, 0, NoMatch) && b0 == MState("catalog", 7, st, 0, NoMatch)
    requires FeedAll(DState([a0.(status := Done), b0], None), "alog") == Ok(g)
    ensures FeedAll(DState([a0, b0], None), "catalog") == Ok(Fed(g.d, [Styled("cat", st)] + g.written))
  {
    var d0 := DState([a0, b0], None);
    var d1 := DState([a0.(idx := 1, status := Storing), b0], Some(0));
    var d2 := DState([a0.(idx := 2, status := Storing), b0], Some(0));
    var d3 := DState([a0.(status := Done), b0], None);
    CatSteps(st, a0, b0);
    var w := [Styled("cat", st)] + g.written;
    assert "catalog"[1..] == "atalog" && "atalog"[1..] == "talog" && "talog"[1..] == "alog";
    Step(d2, "talog", Fed(d3, [Styled("cat", st)]), g);
    Step(d1, "atalog", Fed(d2, []), Fed(g.d, w));
    assert [] + w == w;
    Step(d0, "catalog", Fed(d1, []), Fed(g.d, w));
  }

  /** Feeding "catalog" to the idle targets "cat" and "catalog". */
  lemma CatRun(st: Style, a0: MState, b0: MState)
    requires a0 == MState("cat", 3, st, 0, NoMatch) && b0 == MState("catalog", 7, st, 0, NoMatch)
    ensures var r := FeedAll(DState([a0, b0], None), "catalog");
            r.Ok? && Render(r.value.written) == Decorate(st, "cat") + "alog"
  {
    CatTail(st, a0, b0);
    var g := FeedAll(DState([a0.(status := Done), b0], None), "alog").value;
    CatPrefix(st, a0, b0, g);
    EmitConcat([Styled("cat", st)], g.written, true);
    EmitOne(Styled("cat", st), true);
  }

  /**
   * With the targets "cat" and "catalog", the input "catalog" shows "cat" in
   * colour followed by "alog": the first declared target wins, even when a
   * longer one would match.
   */
  lemma CatBeforeCatalog(st: Style)
    ensures Output(["cat", "catalog"], st, "catalog") == Ok(Decorate(st, "cat") + "alog")
  {
    PlainLength("cat");
    PlainLength("catalog");
    var a0 := MState("cat", 3, st, 0, NoMatch);
    var b0 := MState("catalog", 7, st, 0, NoMatch);
    assert ["cat", "catalog"][1..] == ["catalog"] && ["catalog"][1..] == [];
    assert Fresh(["cat", "catalog"], st) == [a0, b0];
    CatRun(st, a0, b0);
  }

  /** The output for one target with no escape characters. */
  lemma OutputOne(t: string, st: Style, input: string)
    requires ESC !in t
    ensures Output([t], st, input) == match FeedAll(DState([MState(t, |t|, st, 0, NoMatch)], None), input)
                                     case Err(e) => Err(e)
                                     case Ok(f) => Ok(Render(f.written))
  {
    PlainLength(t);
    assert [t][1..] == [];
    assert Fresh([t], st) == [MState(t, |t|, st, 0, NoMatch)];
  }

  /** The steps of "aa" against the target "aa". */
  lemma PairSteps(st: Style, a: MState)
    requires a == MState("aa", 2, st, 0, NoMatch)
    ensures Feed(DState([a], None), 'a') == Ok(Fed(DState([a.(idx := 1, status := Storing)], Some(0)), []))
    ensures Feed(DState([a.(status := Done)], None), 'a') == Ok(Fed(DState([a.(idx := 1, status := Storing)], Some(0)), []))
    ensures Feed(DState([a.(idx := 1, status := Storing)], Some(0)), 'a')
         == Ok(Fed(DState([a.(status := Done)], None), [Styled("aa", st)]))
  {
    var e: seq<Piece> := [];
    var d1 := DState([a.(idx := 1, status := Storing)], Some(0));
    var d2 := DState([a.(status := Done)], None);
    assert "aa"[0] == 'a' && "aa"[1] == 'a';
    assert PassThrough(Scan(d1.ms, Some(0), e), 'a') == e && e + e == e;
    FeedIdle(DState([a], None), 'a');
    FindFromStep([a], 'a', 0);
    assert [a][0 := d1.ms[0]] == d1.ms;
    FeedIdle(d2, 'a');
    FindFromStep(d2.ms, 'a', 0);
    assert d2.ms[0 := d1.ms[0]] == d1.ms;
    FeedAccepted(d1, 'a', Advanced(d2.ms[0], true, [Styled("aa", st)]));
    assert d1.ms[0 := d2.ms[0]] == d2.ms;
  }

  /** Occurrences do not overlap: "aaaa" shows "aa" in colour twice. */
  lemma PairTwice(st: Style)
    ensures Output(["aa"], st, "aaaa") == Ok(Decorate(st, "aa") + Decorate(st, "aa"))
  {
    var a := MState("aa", 2, st, 0, NoMatch);
    OutputOne("aa", st, "aaaa");
    PairSteps(st, a);
    var d0 := DState([a], None);
    var d1 := DState([a.(idx := 1, status := Storing)], Some(0));
    var d2 := DState([a.(status := Done)], None);
    var w := [Styled("aa", st)];
    assert "aaaa"[1..] == "aaa" && "aaa"[1..] == "aa" && "aa"[1..] == "a" && "a"[1..] == "";
    Stop(d2);
    Step(d1, "a", Fed(d2, w), Fed(d2, []));
    assert w + [] == w;
    Step(d2, "aa", Fed(d1, []), Fed(d2, w));
    assert [] + w == w;
    Step(d1, "aaa", Fed(d2, w), Fed(d2, w));
    Step(d0, "aaaa", Fed(d1, []), Fed(d2, w + w));
    assert [] + (w + w) == w + w;
    EmitConcat(w, w, true);
    EmitOne(Styled("aa", st), true);
  }

  /** The steps of "abx" against the target "abc". */
  lemma AbxSteps(st: Style, a: MState)
    requires a == MState("abc", 3, st, 0, NoMatch)
    ensures Feed(DState([a], None), 'a') == Ok(Fed(DState([a.(idx := 1, status := Storing)], Some(0)), []))
    ensures Feed(DState([a.(idx := 1, status := Storing)], Some(0)), 'b')
         == Ok(Fed(DState([a.(idx := 2, status := Storing)], Some(0)), []))
    ensures Feed(DState([a.(idx := 2, status := Storing)], Some(0)), 'x')
         == Ok(Fed(DState([a], None), [Plain("ab"), Plain("x")]))
  {
    var e: seq<Piece> := [];
    var d1 := DState([a.(idx := 1, status := Storing)], Some(0));
    var d2 := DState([a.(idx := 2, status := Storing)], Some(0));
    assert "abc"[0] == 'a' && "abc"[1] == 'b' && "abc"[2] == 'c' && "abc"[..2] == "ab";
    assert PassThrough(Scan(d1.ms, Some(0), e), 'a') == e && e + e == e;
    FeedIdle(DState([a], None), 'a');
    FindFromStep([a], 'a', 0);
    assert [a][0 := d1.ms[0]] == d1.ms;
    FeedAccepted(d1, 'b', Advanced(d2.ms[0], true, e));
    assert d1.ms[0 := d2.ms[0]] == d2.ms;
    FeedRejected(d2, 'x', Advanced(a, false, [Plain("ab")]));
    assert d2.ms[0 := a] == [a];
    FindFromStep([a], 'x', 0);
    assert [a][0 := a] == [a];
    PrefixedEmpty(FindFrom([a], 'x', 1));
    assert [Plain("ab")] + e + [Plain("x")] == [Plain("ab"), Plain("x")];
  }

  /** What plain pieces write. */
  lemma RenderPlain(p: string, ps: seq<Piece>)
    ensures Render([Plain(p)] + ps) == p + Render(ps)
  {
    assert ([Plain(p)] + ps)[1..] == ps;
  }

  /** Feeding "abx" to the idle target "abc". */
  lemma AbxRun(st: Style, a: MState)
    requires a == MState("abc", 3, st, 0, NoMatch)
    ensures FeedAll(DState([a], None), "abx") == Ok(Fed(DState([a], None), [Plain("ab"), Plain("x")]))
  {
    AbxSteps(st, a);
    var d0 := DState([a], None);
    var d1 := DState([a.(idx := 1, status := Storing)], Some(0));
    var d2 := DState([a.(idx := 2, status := Storing)], Some(0));
    var w := [Plain("ab"), Plain("x")];
    assert "abx"[1..] == "bx" && "bx"[1..] == "x" && "x"[1..] == "";
    Stop(d0);
    Step(d2, "x", Fed(d0, w), Fed(d0, []));
    assert w + [] == w && [] + w == w;
    Step(d1, "bx", Fed(d2, []), Fed(d0, w));
    Step(d0, "abx", Fed(d1, []), Fed(d0, w));
  }

  /** A partial match that fails is written back unchanged: "abx" against "abc" shows "abx". */
  lemma PartialFlushed(st: Style)
    ensures Output(["abc"], st, "abx") == Ok("abx")
  {
    var a := MState("abc", 3, st, 0, NoMatch);
    OutputOne("abc", st, "abx");
    AbxRun(st, a);
    RenderPlain("x", []);
    RenderPlain("ab", [Plain("x")]);
    assert [Plain("ab")] + [Plain("x")] == [Plain("ab"), Plain("x")];
    assert "ab" + ("x" + "") == "abx";
  }

  /** The steps of "aaab" against the target "aab". */
  lemma AabSteps(st: Style, a: MState)
    requires a == MState("aab", 3, st, 0, NoMatch)
    ensures Feed(DState([a], None), 'a') == Ok(Fed(DState([a.(idx := 1, status := Storing)], Some(0)), []))
    ensures Feed(DState([a.(idx := 1, status := Storing)], Some(0)), 'a')
         == Ok(Fed(DState([a.(idx := 2, status := Storing)], Some(0)), []))
    ensures Feed(DState([a.(idx := 2, status := Storing)], Some(0)), 'a')
         == Ok(Fed(DState([a.(idx := 1, status := Storing)], Some(0)), [Plain("aa")]))
    ensures Feed(DState([a.(idx := 1, status := Storing)], Some(0)), 'b')
         == Ok(Fed(DState([a], None), [Plain("a"), Plain("b")]))
  {
    var e: seq<Piece> := [];
    var d1 := DState([a.(idx := 1, status := Storing)], Some(0));
    var d2 := DState([a.(idx := 2, status := Storing)], Some(0));
    assert "aab"[0] == 'a' && "aab"[1] == 'a' && "aab"[2] == 'b';
    assert "aab"[..2] == "aa" && "aab"[..1] == "a";
    assert PassThrough(Scan(d1.ms, Some(0), e), 'a') == e && e + e == e;
    FeedIdle(DState([a], None), 'a');
    FindFromStep([a], 'a', 0);
    assert [a][0 := d1.ms[0]] == d1.ms;
    FeedAccepted(d1, 'a', Advanced(d2.ms[0], true, e));
    assert d1.ms[0 := d2.ms[0]] == d2.ms;
    FeedRejected(d2, 'a', Advanced(a, false, [Plain("aa")]));
    assert d2.ms[0 := a] == [a];
    assert [Plain("aa")] + e + e == [Plain("aa")];
    FeedRejected(d1, 'b', Advanced(a, false, [Plain("a")]));
    assert d1.ms[0 := a] == [a];
    FindFromStep([a], 'b', 0);
    assert [a][0 := a] == [a];
    PrefixedEmpty(FindFrom([a], 'b', 1));
    assert [Plain("a")] + e + [Plain("b")] == [Plain("a"), Plain("b")];
  }

  /**
   * There is no fallback to a shorter prefix: after "aa" fails on the third
   * 'a', only that 'a' is offered again, so "aaab" against "aab" is
   * written unchanged and nothing is shown in colour.
   */
  lemma NoFallback(st: Style)
    ensures Output(["aab"], st, "aaab") == Ok("aaab")
  {
    var a := MState("aab", 3, st, 0, NoMatch);
    OutputOne("aab", st, "aaab");
    AabRun(st, a);
    RenderPlain("b", []);
    RenderPlain("a", [Plain("b")]);
    RenderPlain("aa", [Plain("a"), Plain("b")]);
    assert [Plain("a")] + [Plain("b")] == [Plain("a"), Plain("b")];
    assert [Plain("aa")] + [Plain("a"), Plain("b")] == [Plain("aa"), Plain("a"), Plain("b")];
    assert "aa" + ("a" + ("b" + "")) == "aaab";
  }

  /** Feeding "aaab" to the idle target "aab". */
  lemma AabRun(st: Style, a: MState)
    requires a == MState("aab", 3, st, 0, NoMatch)
    ensures FeedAll(DState([a], None), "aaab") == Ok(Fed(DState([a], None), [Plain("aa"), Plain("a"), Plain("b")]))
  {
    AabSteps(st, a);
    var d0 := DState([a], None);
    var d1 := DState([a.(idx := 1, status := Storing)], Some(0));
    var d2 := DState([a.(idx := 2, status := Storing)], Some(0));
    var w2 := [Plain("a"), Plain("b")];
    var w := [Plain("aa")] + w2;
    assert w == [Plain("aa"), Plain("a"), Plain("b")];
    assert "aaab"[1..] == "aab" && "aab"[1..] == "ab" && "ab"[1..] == "b" && "b"[1..] == "";
    Stop(d0);
    Step(d1, "b", Fed(d0, w2), Fed(d0, []));
    assert w2 + [] == w2;
    Step(d2, "ab", Fed(d1, [Plain("aa")]), Fed(d0, w2));
    Step(d1, "aab", Fed(d2, []), Fed(d0, w));
    assert [] + w == w;
    Step(d0, "aaab", Fed(d1, []), Fed(d0, w));
  }

  /**
   * A one-character target is written at once, yet its matcher is still
   * made active, with its cursor back at 0; the next 'a' it accepts again
   * and only then is `active` cleared.
   */
  lemma SingleStaysActive(st: Style)
    ensures var a := MState("a", 1, st, 0, NoMatch);
            && Feed(DState([a], None), 'a') == Ok(Fed(DState([a.(status := Done)], Some(0)), [Styled("a", st)]))
            && Feed(DState([a.(status := Done)], Some(0)), 'a') == Ok(Fed(DState([a.(status := Done)], None), [Styled("a", st)]))
  {
    var a := MState("a", 1, st, 0, NoMatch);
    var e: seq<Piece> := [];
    var w := [Styled("a", st)];
    var ms := [a.(status := Done)];
    assert "a"[0] == 'a';
    FeedIdle(DState([a], None), 'a');
    FindFromStep([a], 'a', 0);
    assert [a][0 := ms[0]] == ms;
    assert PassThrough(Scan(ms, Some(0), w), 'a') == e && w + e == w;
    FeedAccepted(DState(ms, Some(0)), 'a', Advanced(ms[0], true, w));
    assert ms[0 := ms[0]] == ms;
  }
}
