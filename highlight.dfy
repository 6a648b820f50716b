/**
 * BItext.py, the `Matcher` and `MultiMatcher` classes: objects whose cursor
 * and status change with each character, writing to stdout. Each method is
 * proved to do what the corresponding step function of module `Filter`
 * says, so the transcript lemmas proved there apply to the objects.
 */
module Highlight {
  import opened Runtime
  import opened Strings
  import opened Text
  import opened Filter

  /** One target string, the style it is shown in, and a cursor into it. */
  class Matcher {
    /** The colour name, without its bold marker. */
    const color: string
    /** The target, `string` in the Python code. */
    const target: string
    const slen: nat
    /** `func`: which of the sixteen helpers is applied. */
    const style: Style
    var idx: nat
    var status: Status

    ghost function State(): MState
      reads this
    {
      MState(target, slen, style, idx, status)
    }

    ghost predicate Valid()
      reads this
    {
      Consistent(State())
    }

    constructor Init(color: string, target: string, slen: nat, style: Style)
      ensures this.color == color && this.target == target && this.slen == slen && this.style == style
      ensures idx == 0 && status == NoMatch
    {
      this.color := color;
      this.target := target;
      this.slen := slen;
      this.style := style;
      idx := 0;
      status := NoMatch;
    }

    /**
     * `Matcher(string, color)`: a leading '+' in `color` selects the bold
     * helper; the rest must be a colour name. The cursor starts at 0 and
     * `slen` is the visible length of the target.
     */
    static method Create(target: string, color: string) returns (r: Result<Matcher>)
      ensures ParseStyle(color).Err? ==> r == Err(ParseStyle(color).error)
      ensures ParseStyle(color).Ok? ==>
                && r.Ok? && fresh(r.value) && r.value.Valid()
                && r.value.State() == MState(target, VisibleLength(target), ParseStyle(color).value, 0, NoMatch)
                && r.value.color == StripBold(color)
    {
      if |color| == 0 {
        return Err(IndexError);
      }
      var bold := color[0] == '+';
      var name := if bold then color[1..] else color;
      if name !in Functions {
        return Err(KeyError);
      }
      var st := Style(Functions[name], bold);
      var l := Len(target);
      var m := new Matcher.Init(name, target, l, st);
      return Ok(m);
    }

    /**
     * `match(ch)`: the step `Advance` of the current state, with what it
     * writes appended to `out`. The IndexError of `string[idx]` leaves
     * everything as it was.
     */
    method Match(ch: char, out: Stream) returns (r: Result<bool>)
      modifies this, out
      ensures var a := Advance(old(State()), ch);
              && (a.Err? ==> r == Err(a.error) && State() == old(State()) && out.text == old(out.text))
              && (a.Ok? ==> && r == Ok(a.value.accepted) && State() == a.value.m
                            && out.text == old(out.text) + Render(a.value.written))
      ensures old(Valid()) ==> Valid()
    {
      if idx >= |target| {
        return Err(IndexError);
      }
      if ch == target[idx] {
        idx := idx + 1;
        if idx == slen {
          out.Write(Decorate(style, target));
          EmitOne(Styled(target, style), true);
          idx := 0;
          status := Done;
        } else {
          status := Storing;
        }
        r := Ok(true);
      } else {
        if idx > 0 {
          out.Write(target[..idx]);
          EmitOne(Plain(target[..idx]), true);
        }
        idx := 0;
        status := NoMatch;
        r := Ok(false);
      }
    }
  }

  /** A list of matchers and the one, if any, in the middle of a match. */
  class MultiMatcher {
    const matchers: seq<Matcher>
    var active: Matcher?
    /** The position of `active` in `matchers`. */
    ghost var at: Option<nat>

    /** The matchers are distinct objects and `active` is one of them, at position `at`. */
    ghost predicate Valid()
      reads this
    {
      && (forall i, j :: 0 <= i < j < |matchers| ==> matchers[i] != matchers[j])
      && (at.None? <==> active == null)
      && (at.Some? ==> at.value < |matchers| && active == matchers[at.value])
    }

    /** The states of the matchers, in order. */
    ghost function States(): (r: seq<MState>)
      reads matchers
      ensures |r| == |matchers| && forall i :: 0 <= i < |matchers| ==> r[i] == matchers[i].State()
    {
      seq(|matchers|, i requires 0 <= i < |matchers| reads matchers => matchers[i].State())
    }

    /** The whole state as the step functions see it. */
    ghost function Snapshot(): DState
      reads this, matchers
    {
      DState(States(), at)
    }

    /** `MultiMatcher(matchers)`: nothing is active. */
    constructor (ms: seq<Matcher>)
      requires forall i, j :: 0 <= i < j < |ms| ==> ms[i] != ms[j]
      ensures matchers == ms && active == null && Valid()
      ensures Snapshot() == DState(States(), None)
    {
      matchers := ms;
      active := null;
      at := None;
    }

    /**
     * `findMatcher(ch)`: offers `ch` to each matcher in order and returns the
     * first that accepts it, or none; this is `FindFrom` from position 0.
     */
    method FindMatcher(ch: char, out: Stream) returns (r: Result<Matcher?>, ghost k: Option<nat>)
      requires Valid()
      modifies matchers, out
      ensures Valid()
      ensures var sc := FindFrom(old(States()), ch, 0);
              && (sc.Err? ==> r == Err(sc.error))
              && (sc.Ok? ==> && r.Ok? && k == sc.value.found
                             && r.value == (if k.Some? then matchers[k.value] else null)
                             && States() == sc.value.ms
                             && out.text == old(out.text) + Render(sc.value.written))
    {
      var i := 0;
      ghost var acc: seq<Piece> := [];
      PrefixedEmpty(FindFrom(States(), ch, 0));
      while i < |matchers|
        invariant 0 <= i <= |matchers|
        invariant FindFrom(old(States()), ch, 0) == Prefixed(acc, FindFrom(States(), ch, i))
        invariant out.text == old(out.text) + Render(acc)
      {
        var m := matchers[i];
        ghost var before := States();
        var h := Offer(i, ch, out);
        FindFromStep(before, ch, i);
        if h.Err? {
          return Err(h.error), None;
        }
        ghost var a := Advance(before[i], ch).value;
        EmitConcat(acc, a.written, true);
        ConcatAssoc(old(out.text), Render(acc), Render(a.written));
        if h.value {
          return Ok(m), Some(i);
        }
        PrefixedTwice(acc, a.written, FindFrom(States(), ch, i + 1));
        acc := acc + a.written;
        i := i + 1;
      }
      assert acc + [] == acc;
      return Ok(null), None;
    }

    /** Offers `ch` to the matcher at `i` alone; the others keep their states. */
    method Offer(i: nat, ch: char, out: Stream) returns (h: Result<bool>)
      requires Valid() && i < |matchers|
      modifies matchers[i], out
      ensures Valid()
      ensures var a := Advance(old(States())[i], ch);
              && (a.Err? ==> h == Err(a.error))
              && (a.Ok? ==> && h == Ok(a.value.accepted) && States() == old(States())[i := a.value.m]
                            && out.text == old(out.text) + Render(a.value.written))
    {
      var m := matchers[i];
      ghost var before := States();
      h := m.Match(ch, out);
      forall j | 0 <= j < |matchers| && j != i
        ensures matchers[j].State() == before[j]
      {
        assert matchers[j] != m;
      }
    }

    /**
     * The part `match(ch)` runs when no matcher is active or the active one
     * rejected `ch` (lines 178-183 and 185-189): `findMatcher` picks the new
     * active matcher, and `ch` is written through when there is none.
     */
    method Rescan(ch: char, out: Stream) returns (r: Outcome)
      requires Valid()
      modifies this, matchers, out
      ensures Valid()
      ensures var s := FindFrom(old(States()), ch, 0);
              && (s.Err? ==> r == Fail(s.error))
              && (s.Ok? ==> && r == Pass && Snapshot() == DState(s.value.ms, s.value.found)
                            && out.text == old(out.text) + Render(s.value.written + PassThrough(s.value, ch)))
    {
      var found, k := FindMatcher(ch, out);
      if found.Err? {
        return Fail(found.error);
      }
      ghost var sc := FindFrom(old(States()), ch, 0).value;
      ghost var t1 := out.text;
      active := found.value;
      at := k;
      PassThroughWritten(sc, ch, found.value == null);
      if found.value == null {
        out.Write([ch]);
      }
      EmitConcat(sc.written, PassThrough(sc, ch), true);
      ConcatAssoc(old(out.text), Render(sc.written), Render(PassThrough(sc, ch)));
      return Pass;
    }

    /**
     * `match(ch)`: the step `Feed` of the current state, with what it
     * writes appended to `out`.
     */
    method Match(ch: char, out: Stream) returns (r: Outcome)
      requires Valid()
      modifies this, matchers, out
      ensures Valid()
      ensures var f := Feed(old(Snapshot()), ch);
              && (f.Err? ==> r == Fail(f.error))
              && (f.Ok? ==> && r == Pass && Snapshot() == f.value.d
                            && out.text == old(out.text) + Render(f.value.written))
    {
      if active == null {
        FeedIdle(Snapshot(), ch);
        r := Rescan(ch, out);
        return;
      }
      ghost var d := Snapshot();
      var h := active.Match(ch, out);
      if h.Err? {
        return Fail(h.error);
      }
      ghost var adv := Advance(d.ms[at.value], ch).value;
      assert States() == d.ms[at.value := adv.m];
      if h.value {
        FeedAccepted(d, ch, adv);
        assert active.status == adv.m.status;
        if active.status == Done {
          // The Python code compares `_status` with NOMATCH here instead of
          // assigning it, so only `active` is cleared.
          active := null;
          at := None;
        }
        return Pass;
      }
      FeedRejected(d, ch, adv);
      ghost var t1 := out.text;
      r := Rescan(ch, out);
      if r.Pass? {
        ghost var sc := FindFrom(d.ms[d.active.value := adv.m], ch, 0).value;
        EmitConcat(adv.written, sc.written + PassThrough(sc, ch), true);
        ConcatAssoc(old(out.text), Render(adv.written), Render(sc.written + PassThrough(sc, ch)));
        ConcatAssoc(adv.written, sc.written, PassThrough(sc, ch));
      }
    }
  }
}
