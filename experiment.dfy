/**
 * BIexperiment.py: an experiment is a list of conditions, each with its
 * samples, an index from each sample to its condition, and a list of
 * contrasts between pairs of conditions. The value `State` is what the
 * object holds; the class `Experiment` updates it in place and each of
 * its methods is proved to produce the state the functions here describe.
 */
module Experiments {
  import opened Runtime
  import opened Strings

  /** A contrast `[test, ctrl]`. */
  datatype Contrast = Contrast(test: string, ctrl: string)

  /** The five fields of an experiment. */
  datatype State = State(
    conditions: seq<string>,
    condsamples: map<string, seq<string>>,
    samples: seq<string>,
    samplescond: seq<nat>,
    contrasts: seq<Contrast>)

  /** What `Experiment()` starts from. */
  const Empty: State := State([], map[], [], [], [])

  function Repeat<T>(x: T, n: nat): (r: seq<T>)
    ensures |r| == n && forall i :: 0 <= i < n ==> r[i] == x
  {
    seq(n, _ => x)
  }

  // ---------------------------------------------------------------------
  // Conditions and samples

  /** The sample lists of successive conditions, one after the other. */
  function Flatten(css: seq<seq<string>>): seq<string>
  {
    if |css| == 0 then [] else Flatten(css[..|css| - 1]) + css[|css| - 1]
  }

  /** For each sample of `Flatten(css)`, the position of the list it came from. */
  function Owners(css: seq<seq<string>>): (r: seq<nat>)
    ensures |r| == |Flatten(css)|
    ensures forall i :: 0 <= i < |r| ==> r[i] < |css|
  {
    if |css| == 0 then [] else Owners(css[..|css| - 1]) + Repeat(|css| - 1, |css[|css| - 1]|)
  }

  /** No later condition has the name of the k-th. */
  predicate LastOccurrence(names: seq<string>, k: int)
    requires 0 <= k < |names|
  {
    forall j :: k < j < |names| ==> names[j] != names[k]
  }

  /**
   * The invariant of an experiment whose conditions were added with the
   * sample lists `added`, in order: the samples are those lists one after
   * the other, each indexed by its condition's position, and each name maps
   * to the samples of its last addition.
   */
  ghost predicate Consistent(e: State, added: seq<seq<string>>)
  {
    && |added| == |e.conditions|
    && e.samples == Flatten(added)
    && e.samplescond == Owners(added)
    && (forall c :: c in e.condsamples <==> c in e.conditions)
    && (forall k :: 0 <= k < |added| && LastOccurrence(e.conditions, k) ==> e.condsamples[e.conditions[k]] == added[k])
  }

  /** The empty experiment has added nothing. */
  lemma EmptyConsistent()
    ensures Consistent(Empty, [])
  {
  }

  /** `addCondition(cname, csamples)`: the new state. */
  function WithCondition(e: State, cname: string, cs: seq<string>): State
  {
    e.(samples := e.samples + cs,
       samplescond := e.samplescond + Repeat(|e.conditions|, |cs|),
       conditions := e.conditions + [cname],
       condsamples := e.condsamples[cname := cs])
  }

  /** The warning for a sample name seen before. */
  function DuplicateWarning(s: string): string
  {
    "Warning: duplicate sample name `" + s + "'.\n"
  }

  /**
   * What `addCondition` writes to stderr: a warning for each sample already
   * among the samples, counting the ones of this call added before it.
   */
  function Warnings(prior: seq<string>, cs: seq<string>): string
  {
    if |cs| == 0 then ""
    else
      var init := cs[..|cs| - 1];
      Warnings(prior, init) + (if cs[|cs| - 1] in prior + init then DuplicateWarning(cs[|cs| - 1]) else "")
  }

  /** Nothing is written exactly when every new sample name is new. */
  lemma {:induction false} WarningsNone(prior: seq<string>, cs: seq<string>)
    ensures Warnings(prior, cs) == "" <==> forall i :: 0 <= i < |cs| ==> cs[i] !in prior + cs[..i]
  {
    if |cs| > 0 {
      var init := cs[..|cs| - 1];
      WarningsNone(prior, init);
      assert forall i :: 0 <= i < |init| ==> init[i] == cs[i] && init[..i] == cs[..i];
      assert cs[..|cs| - 1] == init;
      var w := if cs[|cs| - 1] in prior + init then DuplicateWarning(cs[|cs| - 1]) else "";
      assert Warnings(prior, cs) == Warnings(prior, init) + w;
      assert |Warnings(prior, cs)| == |Warnings(prior, init)| + |w|;
    }
  }

  /** `addCondition` keeps the invariant. */
  lemma WithConditionConsistent(e: State, added: seq<seq<string>>, cname: string, cs: seq<string>)
    requires Consistent(e, added)
    ensures Consistent(WithCondition(e, cname, cs), added + [cs])
  {
    var e' := WithCondition(e, cname, cs);
    var added' := added + [cs];
    assert added'[..|added|] == added;
    forall k | 0 <= k < |added'| && LastOccurrence(e'.conditions, k)
      ensures e'.condsamples[e'.conditions[k]] == added'[k]
    {
      if k < |added| {
        assert e'.conditions[k] != cname by {
          assert e'.conditions[|added|] == cname;
        }
        assert LastOccurrence(e.conditions, k) by {
          forall j | k < j < |e.conditions| ensures e.conditions[j] != e.conditions[k] {
            assert e'.conditions[j] == e.conditions[j];
          }
        }
      }
    }
  }

  // ---------------------------------------------------------------------
  // Sample labels

  /** `sampleLabels()`: each condition's name once per sample it maps to, in condition order. */
  function Labels(conditions: seq<string>, condsamples: map<string, seq<string>>): seq<string>
    requires forall c :: c in conditions ==> c in condsamples
  {
    if |conditions| == 0 then []
    else
      var c := conditions[|conditions| - 1];
      Labels(conditions[..|conditions| - 1], condsamples) + Repeat(c, |condsamples[c]|)
  }

  /** The same, with each condition's samples given by position. */
  function LabelsOf(names: seq<string>, css: seq<seq<string>>): seq<string>
    requires |names| == |css|
  {
    if |css| == 0 then []
    else LabelsOf(names[..|names| - 1], css[..|css| - 1]) + Repeat(names[|names| - 1], |css[|css| - 1]|)
  }

  lemma {:induction false} LabelsAgree(names: seq<string>, m: map<string, seq<string>>, css: seq<seq<string>>)
    requires |names| == |css|
    requires forall k :: 0 <= k < |names| ==> names[k] in m && m[names[k]] == css[k]
    ensures Labels(names, m) == LabelsOf(names, css)
  {
    if |names| > 0 {
      LabelsAgree(names[..|names| - 1], m, css[..|css| - 1]);
    }
  }

  lemma {:induction false} LabelsOfOwners(names: seq<string>, css: seq<seq<string>>)
    requires |names| == |css|
    ensures |LabelsOf(names, css)| == |Flatten(css)|
    ensures forall i :: 0 <= i < |Flatten(css)| ==> LabelsOf(names, css)[i] == names[Owners(css)[i]]
  {
    if |css| > 0 {
      var n := |css| - 1;
      LabelsOfOwners(names[..n], css[..n]);
      var l, f, o := LabelsOf(names[..n], css[..n]), Flatten(css[..n]), Owners(css[..n]);
      forall i | 0 <= i < |Flatten(css)| ensures LabelsOf(names, css)[i] == names[Owners(css)[i]] {
        if i < |f| {
          assert LabelsOf(names, css)[i] == l[i] && Owners(css)[i] == o[i];
          assert names[..n][o[i]] == names[o[i]];
        } else {
          assert LabelsOf(names, css)[i] == names[n] && Owners(css)[i] == n;
        }
      }
    }
  }

  /**
   * With distinct condition names, `sampleLabels()` has one entry per
   * sample, and entry i is the name of the condition of sample i.
   */
  lemma LabelsBySample(e: State, added: seq<seq<string>>)
    requires Consistent(e, added)
    requires forall i, j :: 0 <= i < j < |e.conditions| ==> e.conditions[i] != e.conditions[j]
    ensures |Labels(e.conditions, e.condsamples)| == |e.samples|
    ensures forall i :: 0 <= i < |e.samples| ==> Labels(e.conditions, e.condsamples)[i] == e.conditions[e.samplescond[i]]
  {
    forall k | 0 <= k < |added| ensures e.condsamples[e.conditions[k]] == added[k] {
      assert LastOccurrence(e.conditions, k);
    }
    LabelsAgree(e.conditions, e.condsamples, added);
    LabelsOfOwners(e.conditions, added);
  }

  /**
   * Without distinct names the labels no longer line up with the samples:
   * a condition added twice contributes its last samples twice.
   */
  lemma RepeatedConditionLabels()
    ensures var e := WithCondition(WithCondition(Empty, "a", ["s1"]), "a", ["s2", "s3"]);
            |e.samples| == 3 && |Labels(e.conditions, e.condsamples)| == 4
  {
    var e := WithCondition(WithCondition(Empty, "a", ["s1"]), "a", ["s2", "s3"]);
    var m := e.condsamples;
    assert e.conditions == ["a", "a"] && e.conditions[..1] == ["a"] && ["a"][..0] == [];
    assert m["a"] == ["s2", "s3"];
    assert Labels([], m) == [];
    assert |Labels(["a"], m)| == 2;
  }

  // ---------------------------------------------------------------------
  // Contrasts

  /** What `addContrast` writes to stderr: about the first unknown name, if any. */
  function ContrastError(conditions: seq<string>, test: string, ctrl: string): string
  {
    if test !in conditions then "Error: " + test + " is not a condition name.\n"
    else if ctrl !in conditions then "Error: " + ctrl + " is not a condition name.\n"
    else ""
  }

  /** `addContrast(test, ctrl)`: the new state. */
  function WithContrast(e: State, test: string, ctrl: string): (r: State)
    ensures r.conditions == e.conditions && r.condsamples == e.condsamples
    ensures r.samples == e.samples && r.samplescond == e.samplescond
    ensures test in e.conditions && ctrl in e.conditions ==> r.contrasts == e.contrasts + [Contrast(test, ctrl)]
    ensures !(test in e.conditions && ctrl in e.conditions) ==> r == e
  {
    if test in e.conditions && ctrl in e.conditions then e.(contrasts := e.contrasts + [Contrast(test, ctrl)]) else e
  }

  /** Adding contrasts keeps the invariant. */
  lemma WithContrastConsistent(e: State, added: seq<seq<string>>, test: string, ctrl: string)
    requires Consistent(e, added)
    ensures Consistent(WithContrast(e, test, ctrl), added)
  {
  }

  // ---------------------------------------------------------------------
  // Loading from rows

  /** `[s.strip() for s in parts]`. */
  function StripAll(parts: seq<string>): (r: seq<string>)
    ensures |r| == |parts| && forall i :: 0 <= i < |parts| ==> r[i] == Strip(parts[i])
  {
    if |parts| == 0 then [] else [Strip(parts[0])] + StripAll(parts[1..])
  }

  /** The samples of a conditions row: its second column, split on ',' and stripped. */
  function RowSamples(row: seq<string>): seq<string>
    requires |row| >= 2
  {
    StripAll(Split(row[1], ','))
  }

  /** The number of leading rows with at least two columns. */
  function Complete(rows: seq<seq<string>>): (n: nat)
    ensures n <= |rows| && (forall i :: 0 <= i < n ==> |rows[i]| >= 2) && (n < |rows| ==> |rows[n]| < 2)
  {
    if |rows| == 0 || |rows[0]| < 2 then 0 else 1 + Complete(rows[1..])
  }

  /**
   * The state after `addCondition` on each row, in order (applied to
   * complete rows only: the loader stops at the first short one).
   */
  function AfterConditions(e: State, rows: seq<seq<string>>): State
  {
    if |rows| == 0 then e
    else
      var before, last := AfterConditions(e, rows[..|rows| - 1]), rows[|rows| - 1];
      if |last| < 2 then before else WithCondition(before, last[0], RowSamples(last))
  }

  /** What those calls write to stderr. */
  function ConditionsLog(e: State, rows: seq<seq<string>>): string
  {
    if |rows| == 0 then ""
    else
      var init, last := rows[..|rows| - 1], rows[|rows| - 1];
      ConditionsLog(e, init) + (if |last| < 2 then "" else Warnings(AfterConditions(e, init).samples, RowSamples(last)))
  }

  /** One more row of conditions. */
  lemma ConditionsStep(e: State, rows: seq<seq<string>>, i: nat)
    requires i < |rows| && |rows[i]| >= 2
    ensures AfterConditions(e, rows[..i + 1]) == WithCondition(AfterConditions(e, rows[..i]), rows[i][0], RowSamples(rows[i]))
    ensures ConditionsLog(e, rows[..i + 1]) == ConditionsLog(e, rows[..i]) + Warnings(AfterConditions(e, rows[..i]).samples, RowSamples(rows[i]))
  {
    assert rows[..i + 1][..i] == rows[..i] && rows[..i + 1][i] == rows[i];
  }

  /** The conditions of the rows, with their samples. */
  function RowConditions(rows: seq<seq<string>>): (r: seq<seq<string>>)
    requires forall i :: 0 <= i < |rows| ==> |rows[i]| >= 2
    ensures |r| == |rows| && forall i :: 0 <= i < |rows| ==> r[i] == RowSamples(rows[i])
  {
    if |rows| == 0 then [] else RowConditions(rows[..|rows| - 1]) + [RowSamples(rows[|rows| - 1])]
  }

  /** Loading condition rows keeps the invariant, the rows' sample lists added in row order. */
  lemma {:induction false} AfterConditionsConsistent(e: State, added: seq<seq<string>>, rows: seq<seq<string>>)
    requires Consistent(e, added)
    requires forall i :: 0 <= i < |rows| ==> |rows[i]| >= 2
    ensures Consistent(AfterConditions(e, rows), added + RowConditions(rows))
    ensures AfterConditions(e, rows).contrasts == e.contrasts
  {
    if |rows| > 0 {
      var init, last := rows[..|rows| - 1], rows[|rows| - 1];
      AfterConditionsConsistent(e, added, init);
      var before := AfterConditions(e, init);
      WithConditionConsistent(before, added + RowConditions(init), last[0], RowSamples(last));
      assert AfterConditions(e, rows) == WithCondition(before, last[0], RowSamples(last));
      assert RowConditions(rows) == RowConditions(init) + [RowSamples(last)];
      ConcatAssoc(added, RowConditions(init), [RowSamples(last)]);
    } else {
      assert added + RowConditions(rows) == added;
    }
  }

  /** The message for a contrasts row without two names, `ln` counting rows from 1. */
  function ShortRowError(ln: int, filename: string): string
  {
    "Error - line " + IntToString(ln) + " of file " + filename + " should contain two condition names.\n"
  }

  /** The state after the contrasts rows: short rows are skipped, the others go through `addContrast`. */
  function AfterContrasts(e: State, rows: seq<seq<string>>): State
  {
    if |rows| == 0 then e
    else
      var before := AfterContrasts(e, rows[..|rows| - 1]);
      var last := rows[|rows| - 1];
      if |last| < 2 then before else WithContrast(before, last[0], last[1])
  }

  /** What loading the contrasts rows writes to stderr. */
  function ContrastsLog(conditions: seq<string>, rows: seq<seq<string>>, filename: string): string
  {
    if |rows| == 0 then ""
    else
      var last := rows[|rows| - 1];
      ContrastsLog(conditions, rows[..|rows| - 1], filename)
      + (if |last| < 2 then ShortRowError(|rows|, filename) else ContrastError(conditions, last[0], last[1]))
  }

  /** A row that names two known conditions. */
  predicate Accepted(conditions: seq<string>, row: seq<string>)
  {
    |row| >= 2 && row[0] in conditions && row[1] in conditions
  }

  /** The positions of the accepted rows, in order. */
  function AcceptedRows(conditions: seq<string>, rows: seq<seq<string>>): (ps: seq<nat>)
    ensures forall k :: 0 <= k < |ps| ==> ps[k] < |rows| && Accepted(conditions, rows[ps[k]])
    ensures forall k, l :: 0 <= k < l < |ps| ==> ps[k] < ps[l]
    ensures forall j :: 0 <= j < |rows| && Accepted(conditions, rows[j]) ==> j in ps
  {
    if |rows| == 0 then []
    else
      var rest := AcceptedRows(conditions, rows[..|rows| - 1]);
      if Accepted(conditions, rows[|rows| - 1]) then rest + [|rows| - 1] else rest
  }

  /**
   * Loading contrasts changes nothing but the contrasts, and appends one
   * `[test, ctrl]` per accepted row, in row order.
   */
  lemma {:induction false} AfterContrastsMeaning(e: State, rows: seq<seq<string>>)
    ensures var r := AfterContrasts(e, rows);
            var ps := AcceptedRows(e.conditions, rows);
            && r.(contrasts := e.contrasts) == e
            && |r.contrasts| == |e.contrasts| + |ps|
            && r.contrasts[..|e.contrasts|] == e.contrasts
            && forall k :: 0 <= k < |ps| ==>
                 r.contrasts[|e.contrasts| + k] == Contrast(rows[ps[k]][0], rows[ps[k]][1])
  {
    if |rows| > 0 {
      var init := rows[..|rows| - 1];
      AfterContrastsMeaning(e, init);
      var before := AfterContrasts(e, init);
      var ps0 := AcceptedRows(e.conditions, init);
      var ps := AcceptedRows(e.conditions, rows);
      assert forall k :: 0 <= k < |ps0| ==> init[ps0[k]] == rows[ps0[k]];
      assert before.conditions == e.conditions;
    }
  }

  // ---------------------------------------------------------------------
  // The object

  /** `Experiment`. */
  class Experiment {
    var conditions: seq<string>
    var condsamples: map<string, seq<string>>
    var samples: seq<string>
    var samplescond: seq<nat>
    var contrasts: seq<Contrast>
    /** The sample lists passed to `addCondition`, in order. */
    ghost var added: seq<seq<string>>

    function Current(): State
      reads this
    {
      State(conditions, condsamples, samples, samplescond, contrasts)
    }

    ghost predicate Valid()
      reads this
    {
      Consistent(Current(), added)
    }

    /** `Experiment()`: everything empty. */
    constructor ()
      ensures Current() == Empty && Valid()
    {
      conditions := [];
      condsamples := map[];
      samples := [];
      samplescond := [];
      contrasts := [];
      added := [];
    }

    /**
     * `addCondition(cname, csamples)`: appends each sample with the index of
     * the new condition, warning about names seen before, then the
     * condition itself.
     */
    method AddCondition(cname: string, csamples: seq<string>, err: Stream)
      modifies this, err
      ensures Current() == WithCondition(old(Current()), cname, csamples)
      ensures err.text == old(err.text) + Warnings(old(samples), csamples)
      ensures added == old(added) + [csamples]
      ensures old(Valid()) ==> Valid()
    {
      ghost var e := Current();
      var cidx := |conditions|;
      var i := 0;
      while i < |csamples|
        invariant 0 <= i <= |csamples|
        invariant samples == e.samples + csamples[..i]
        invariant samplescond == e.samplescond + Repeat(cidx, i)
        invariant err.text == old(err.text) + Warnings(e.samples, csamples[..i])
        invariant conditions == e.conditions && condsamples == e.condsamples && contrasts == e.contrasts
        invariant added == old(added)
      {
        var cs := csamples[i];
        assert csamples[..i + 1][..i] == csamples[..i] && csamples[..i + 1][i] == cs;
        ghost var t0 := err.text;
        if cs in samples {
          err.Write(DuplicateWarning(cs));
        }
        ConcatAssoc(old(err.text), Warnings(e.samples, csamples[..i]), if cs in samples then DuplicateWarning(cs) else "");
        assert samples + [cs] == e.samples + csamples[..i + 1];
        samples := samples + [cs];
        samplescond := samplescond + [cidx];
        assert Repeat(cidx, i) + [cidx] == Repeat(cidx, i + 1);
        i := i + 1;
      }
      assert csamples[..i] == csamples;
      conditions := conditions + [cname];
      condsamples := condsamples[cname := csamples];
      added := added + [csamples];
      if old(Valid()) {
        WithConditionConsistent(e, old(added), cname, csamples);
      }
    }

    /**
     * `addContrast(test, ctrl)`: True and the pair appended when both are
     * condition names; otherwise False, an error on stderr, nothing added.
     */
    method AddContrast(test: string, ctrl: string, err: Stream) returns (ok: bool)
      modifies this, err
      ensures ok <==> test in old(conditions) && ctrl in old(conditions)
      ensures Current() == WithContrast(old(Current()), test, ctrl)
      ensures err.text == old(err.text) + ContrastError(old(conditions), test, ctrl)
      ensures added == old(added)
    {
      if test !in conditions {
        err.Write("Error: " + test + " is not a condition name.\n");
        return false;
      }
      if ctrl !in conditions {
        err.Write("Error: " + ctrl + " is not a condition name.\n");
        return false;
      }
      contrasts := contrasts + [Contrast(test, ctrl)];
      assert ContrastError(conditions, test, ctrl) == "";
      assert err.text == old(err.text) + "";
      return true;
    }

    /** `sampleLabels()`. */
    method SampleLabels() returns (result: seq<string>)
      requires Valid()
      ensures result == Labels(conditions, condsamples)
    {
      result := [];
      var i := 0;
      while i < |conditions|
        invariant 0 <= i <= |conditions|
        invariant result == Labels(conditions[..i], condsamples)
      {
        var cond := conditions[i];
        assert conditions[..i + 1][..i] == conditions[..i] && conditions[..i + 1][i] == cond;
        var smps := condsamples[cond];
        var j := 0;
        while j < |smps|
          invariant 0 <= j <= |smps|
          invariant result == Labels(conditions[..i], condsamples) + Repeat(cond, j)
        {
          result := result + [cond];
          assert Repeat(cond, j) + [cond] == Repeat(cond, j + 1);
          j := j + 1;
        }
        i := i + 1;
      }
      assert conditions[..i] == conditions;
    }

    /**
     * The row handling of `initConditionsFromFile`: each row is a condition
     * name and a comma-separated list of samples. A row with fewer than two
     * columns raises IndexError; the rows before it have been added.
     */
    method InitConditionsFromRows(rows: seq<seq<string>>, err: Stream) returns (r: Outcome)
      modifies this, err
      ensures var n := Complete(rows);
              && Current() == AfterConditions(old(Current()), rows[..n])
              && err.text == old(err.text) + ConditionsLog(old(Current()), rows[..n])
              && (r.Fail? <==> n < |rows|)
              && (r.Fail? ==> r.error == IndexError)
      ensures old(Valid()) ==> Valid()
    {
      ghost var e := Current();
      var i := 0;
      while i < |rows|
        invariant 0 <= i <= |rows| && i <= Complete(rows)
        invariant Current() == AfterConditions(e, rows[..i])
        invariant err.text == old(err.text) + ConditionsLog(e, rows[..i])
        invariant old(Valid()) ==> Valid()
      {
        if |rows[i]| < 2 {
          assert Complete(rows) == i;
          return Fail(IndexError);
        }
        var line := rows[i];
        var csamples := RowSamples(line);
        ConditionsStep(e, rows, i);
        ghost var log := ConditionsLog(e, rows[..i]);
        ghost var w := Warnings(AfterConditions(e, rows[..i]).samples, csamples);
        AddCondition(line[0], csamples, err);
        ConcatAssoc(old(err.text), log, w);
        i := i + 1;
      }
      assert Complete(rows) == |rows| && rows[..i] == rows;
      return Pass;
    }

    /**
     * The row handling of `initContrastsFromFile`: a row with fewer than two
     * columns is reported with its line number and skipped, every other row
     * goes through `addContrast`.
     */
    method InitContrastsFromRows(rows: seq<seq<string>>, filename: string, err: Stream)
      modifies this, err
      ensures Current() == AfterContrasts(old(Current()), rows)
      ensures err.text == old(err.text) + ContrastsLog(old(conditions), rows, filename)
      ensures added == old(added)
    {
      ghost var e := Current();
      var ln := 1;
      var i := 0;
      while i < |rows|
        invariant 0 <= i <= |rows| && ln == i + 1
        invariant Current() == AfterContrasts(e, rows[..i])
        invariant conditions == e.conditions
        invariant err.text == old(err.text) + ContrastsLog(e.conditions, rows[..i], filename)
        invariant added == old(added)
      {
        var line := rows[i];
        assert rows[..i + 1][..i] == rows[..i] && rows[..i + 1][i] == line;
        ghost var t0 := err.text;
        if |line| < 2 {
          err.Write(ShortRowError(ln, filename));
          ConcatAssoc(old(err.text), ContrastsLog(e.conditions, rows[..i], filename), ShortRowError(ln, filename));
        } else {
          var _ := AddContrast(line[0], line[1], err);
          ConcatAssoc(old(err.text), ContrastsLog(e.conditions, rows[..i], filename), ContrastError(e.conditions, line[0], line[1]));
        }
        ln := ln + 1;
        i := i + 1;
      }
      assert rows[..i] == rows;
    }
  }
}
