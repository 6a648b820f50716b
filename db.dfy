/**
 * BIdb.py: the schema description language. A field is declared by a name
 * and a comma-separated spec of tokens; a table by a name and its fields;
 * a database keeps its tables in a registry keyed by name. The statements
 * `CREATE TABLE`, `CREATE INDEX`, `DROP TABLE IF EXISTS` and `DELETE FROM`
 * are built as strings.
 */
module Db {
  import opened Runtime
  import opened Strings

  /** `dget(dict, key)`: the value stored under `key`, or None. */
  function Dget<K, V>(m: map<K, V>, key: K): (r: Option<V>)
    ensures r.Some? <==> key in m
    ensures r.Some? ==> r.value == m[key]
  {
    if key in m then Some(m[key]) else None
  }

  // ---------------------------------------------------------------------
  // Field specs

  /** The attributes `parseSpec` sets; `default` is None until a `D` token is seen. */
  datatype Attrs = Attrs(ftype: string, pk: bool, autoinc: bool, index: bool, notnull: bool, default: Option<string>)

  /** The class-level values of `DBField`, before any token is read. */
  const Unset: Attrs := Attrs("", false, false, false, false, None)

  /**
   * One token of `parseSpec`, tested in the order the Python code tests them. The empty
   * token matches none of the exact tokens and then fails on `v[0]`.
   */
  function Apply(a: Attrs, v: string): (r: Result<Attrs>)
    ensures r.Err? <==> |v| == 0
    ensures r.Err? ==> r.error == IndexError
  {
    if v == "I" then Ok(a.(ftype := "INT"))
    else if v == "B" then Ok(a.(ftype := "BIGINT"))
    else if v == "R" then Ok(a.(ftype := "REAL"))
    else if v == "T" then Ok(a.(ftype := "TEXT"))
    else if v == "Y" then Ok(a.(ftype := "DATE"))
    else if |v| == 0 then Err(IndexError)
    else if v[0] == 'C' then Ok(a.(ftype := "CHAR(" + v[1..] + ")"))
    else if v[0] == 'V' then Ok(a.(ftype := "VARCHAR(" + v[1..] + ")"))
    else if v == "N" then Ok(a.(notnull := true))
    else if v == "X" then Ok(a.(index := true))
    else if v == "P" then Ok(a.(pk := true))
    else if v == "A" then Ok(a.(autoinc := true))
    else if v[0] == 'D' then Ok(a.(default := Some(v[1..])))
    else Ok(a)
  }

  /** The tokens applied in order, up to the first empty one, where `parseSpec` raises. */
  function ApplyAll(a: Attrs, vs: seq<string>): Attrs
    decreases |vs|
  {
    if |vs| == 0 then a
    else
      match Apply(a, vs[0])
      case Err(_) => a
      case Ok(b) => ApplyAll(b, vs[1..])
  }

  /** The column types a spec can declare. */
  predicate TypeName(t: string)
  {
    t == "INT" || t == "BIGINT" || t == "REAL" || t == "TEXT" || t == "DATE" || (|t| > 0 && t[|t| - 1] == ')')
  }

  /** The column type a token declares, if it is a type token. */
  function TypeOf(v: string): (r: Option<string>)
    ensures r.Some? ==> TypeName(r.value)
  {
    if v == "I" then Some("INT")
    else if v == "B" then Some("BIGINT")
    else if v == "R" then Some("REAL")
    else if v == "T" then Some("TEXT")
    else if v == "Y" then Some("DATE")
    else if |v| > 0 && v[0] == 'C' then Some("CHAR(" + v[1..] + ")")
    else if |v| > 0 && v[0] == 'V' then Some("VARCHAR(" + v[1..] + ")")
    else None
  }

  /** The type of the last type token, if any. */
  function LastType(vs: seq<string>): (r: Option<string>)
    ensures r.Some? ==> TypeName(r.value)
  {
    if |vs| == 0 then None
    else if TypeOf(vs[|vs| - 1]).Some? then TypeOf(vs[|vs| - 1])
    else LastType(vs[..|vs| - 1])
  }

  /** The value of the last `D` token, if any. */
  function LastDefault(vs: seq<string>): Option<string>
  {
    if |vs| == 0 then None
    else if |vs[|vs| - 1]| > 0 && vs[|vs| - 1][0] == 'D' then Some(vs[|vs| - 1][1..])
    else LastDefault(vs[..|vs| - 1])
  }

  /** Applying one more token at the end. */
  lemma {:induction false} ApplyAllSnoc(a: Attrs, vs: seq<string>, v: string)
    requires "" !in vs && v != ""
    ensures ApplyAll(a, vs + [v]) == Apply(ApplyAll(a, vs), v).value
    decreases |vs|
  {
    if |vs| == 0 {
      assert vs + [v] == [v];
    } else {
      assert (vs + [v])[0] == vs[0] && (vs + [v])[1..] == vs[1..] + [v];
      assert vs[0] != "";
      ApplyAllSnoc(Apply(a, vs[0]).value, vs[1..], v);
    }
  }

  /**
   * What a spec without empty tokens declares: the last type token gives
   * the type, the last `D` token the default, and each of `N`, `X`, `P`,
   * `A` sets its flag for good; anything else is ignored.
   */
  lemma {:induction false} ParseMeaning(a: Attrs, vs: seq<string>)
    requires "" !in vs
    ensures ApplyAll(a, vs) == Attrs(
              if LastType(vs).Some? then LastType(vs).value else a.ftype,
              a.pk || "P" in vs, a.autoinc || "A" in vs, a.index || "X" in vs, a.notnull || "N" in vs,
              if LastDefault(vs).Some? then LastDefault(vs) else a.default)
    decreases |vs|
  {
    if |vs| > 0 {
      var init, v := vs[..|vs| - 1], vs[|vs| - 1];
      assert vs == init + [v];
      assert "" !in init;
      ParseMeaning(a, init);
      ApplyAllSnoc(a, init, v);
      ApplyMeaning(ApplyAll(a, init), v);
      assert ("P" in vs <==> "P" in init || v == "P") && ("A" in vs <==> "A" in init || v == "A");
      assert ("X" in vs <==> "X" in init || v == "X") && ("N" in vs <==> "N" in init || v == "N");
    }
  }

  /** One non-empty token, by what it declares. */
  lemma ApplyMeaning(b: Attrs, v: string)
    requires v != ""
    ensures Apply(b, v).value == Attrs(
              if TypeOf(v).Some? then TypeOf(v).value else b.ftype,
              b.pk || v == "P", b.autoinc || v == "A", b.index || v == "X", b.notnull || v == "N",
              if v[0] == 'D' then Some(v[1..]) else b.default)
  {
  }

  /** The empty token stops the parse: what was read before it is kept. */
  lemma {:induction false} ParseStopsAtEmpty(a: Attrs, vs: seq<string>, i: nat)
    requires i < |vs| && vs[i] == "" && "" !in vs[..i]
    ensures ApplyAll(a, vs) == ApplyAll(a, vs[..i])
    decreases i
  {
    if i > 0 {
      assert vs[0] != "" by { assert vs[0] == vs[..i][0]; }
      assert vs[1..][..i - 1] == vs[..i][1..];
      ParseStopsAtEmpty(Apply(a, vs[0]).value, vs[1..], i - 1);
    }
  }

  // ---------------------------------------------------------------------
  // Statements

  /** The `DEFAULT` clause: present only for a non-empty default. */
  function DefaultClause(d: Option<string>): string
  {
    if d.Some? && d.value != "" then " DEFAULT '" + d.value + "'" else ""
  }

  /**
   * `str(field)` as the Python code prints it. Its format string has five
   * placeholders for six arguments, and `str.format` ignores the sixth, so
   * the `NOT NULL` clause never appears: the text is the intended one
   * without that clause.
   */
  function FieldSql(name: string, a: Attrs): (r: string)
    ensures r == IntendedFieldSql(name, a.(notnull := false))
    ensures a.notnull ==> r + " NOT NULL" == IntendedFieldSql(name, a)
  {
    Head(name, a)
    + (if a.pk then " PRIMARY KEY" else "")
    + (if a.autoinc then " AUTO_INCREMENT" else "")
  }

  /** The column definition `str(field)` is evidently meant to print: every clause, `NOT NULL` last. */
  function IntendedFieldSql(name: string, a: Attrs): string
  {
    name + " " + a.ftype + DefaultClause(a.default)
    + (if a.pk then " PRIMARY KEY" else "")
    + (if a.autoinc then " AUTO_INCREMENT" else "")
    + (if a.notnull then " NOT NULL" else "")
  }

  predicate EndsWith(s: string, suffix: string)
  {
    |suffix| <= |s| && s[|s| - |suffix|..] == suffix
  }

  /** Removes `suffix` from the end of `s` when it is there. */
  function Chop(s: string, suffix: string): string
  {
    if EndsWith(s, suffix) then s[..|s| - |suffix|] else s
  }

  datatype Flags = Flags(pk: bool, autoinc: bool, notnull: bool)

  /** Reads the three flag clauses back off the end of a column definition. */
  function FlagsOf(s: string): Flags
  {
    var s1 := Chop(s, " NOT NULL");
    var s2 := Chop(s1, " AUTO_INCREMENT");
    Flags(EndsWith(s2, " PRIMARY KEY"), EndsWith(s1, " AUTO_INCREMENT"), EndsWith(s, " NOT NULL"))
  }

  /** The part of a column definition before the flag clauses. */
  function Head(name: string, a: Attrs): string
  {
    name + " " + a.ftype + DefaultClause(a.default)
  }

  lemma ChopAppended(s: string, suffix: string)
    ensures EndsWith(s + suffix, suffix) && Chop(s + suffix, suffix) == s
  {
    assert (s + suffix)[|s|..] == suffix;
    assert (s + suffix)[..|s|] == s;
  }

  /** A string that differs from `suffix` at the k-th character from the end does not end with it. */
  lemma Mismatch(s: string, suffix: string, k: nat)
    requires k < |s| && k < |suffix| && s[|s| - 1 - k] != suffix[|suffix| - 1 - k]
    ensures !EndsWith(s, suffix)
  {
  }

  /** The endings that no flag clause has. */
  predicate UnlikeFlag(h: string)
  {
    |h| >= 1 &&
    var c := h[|h| - 1];
    || c == '\'' || c == ')' || c == ' ' || c == 'E'
    || (c == 'T' && |h| >= 2 && h[|h| - 2] != 'N')
    || (c == 'T' && |h| >= 3 && h[|h| - 3] != 'E')
    || (c == 'L' && |h| >= 2 && h[|h| - 2] != 'L')
  }

  lemma UnlikeFlagIsNoFlag(h: string)
    requires UnlikeFlag(h)
    ensures !EndsWith(h, " PRIMARY KEY") && !EndsWith(h, " AUTO_INCREMENT") && !EndsWith(h, " NOT NULL")
  {
    var c := h[|h| - 1];
    Mismatch(h, " PRIMARY KEY", 0);
    if c == 'T' && h[|h| - 2] != 'N' {
      Mismatch(h, " AUTO_INCREMENT", 1);
    } else if c == 'T' {
      Mismatch(h, " AUTO_INCREMENT", 2);
    } else {
      Mismatch(h, " AUTO_INCREMENT", 0);
    }
    if c == 'L' {
      Mismatch(h, " NOT NULL", 1);
    } else {
      Mismatch(h, " NOT NULL", 0);
    }
  }

  /**
   * The flags can be read back from the intended column definition when the
   * part before them does not itself end like a flag clause (as it never
   * does once a type or a default is declared, see `HeadIsNotAFlag`).
   */
  lemma FieldSqlFlags(name: string, a: Attrs)
    requires var h := Head(name, a);
             !EndsWith(h, " PRIMARY KEY") && !EndsWith(h, " AUTO_INCREMENT") && !EndsWith(h, " NOT NULL")
    ensures FlagsOf(IntendedFieldSql(name, a)) == Flags(a.pk, a.autoinc, a.notnull)
  {
    var h := Head(name, a);
    var p := if a.pk then h + " PRIMARY KEY" else h;
    var q := if a.autoinc then p + " AUTO_INCREMENT" else p;
    var s := if a.notnull then q + " NOT NULL" else q;
    assert IntendedFieldSql(name, a) == s;
    if a.pk {
      AppendPrimaryKey(h);
    }
    if a.autoinc {
      AppendAutoIncrement(p);
    }
    if a.notnull {
      ChopAppended(q, " NOT NULL");
    }
  }

  /** Appending `PRIMARY KEY` to any text leaves only that flag readable at its end. */
  lemma AppendPrimaryKey(h: string)
    ensures var p := h + " PRIMARY KEY";
            EndsWith(p, " PRIMARY KEY") && !EndsWith(p, " AUTO_INCREMENT") && !EndsWith(p, " NOT NULL")
  {
    var p := h + " PRIMARY KEY";
    ChopAppended(h, " PRIMARY KEY");
    Mismatch(p, " AUTO_INCREMENT", 0);
    Mismatch(p, " NOT NULL", 0);
  }

  /** Appending `AUTO_INCREMENT` can be undone by chopping it, and does not end like `NOT NULL`. */
  lemma AppendAutoIncrement(p: string)
    ensures var q := p + " AUTO_INCREMENT";
            EndsWith(q, " AUTO_INCREMENT") && Chop(q, " AUTO_INCREMENT") == p && !EndsWith(q, " NOT NULL")
  {
    ChopAppended(p, " AUTO_INCREMENT");
    Mismatch(p + " AUTO_INCREMENT", " NOT NULL", 0);
  }

  /** Whatever the type (declared or none) the part before the flags ends unlike any flag clause. */
  lemma HeadIsNotAFlag(name: string, a: Attrs)
    requires a.ftype == "" || TypeName(a.ftype)
    ensures var h := Head(name, a);
            !EndsWith(h, " PRIMARY KEY") && !EndsWith(h, " AUTO_INCREMENT") && !EndsWith(h, " NOT NULL")
  {
    var t := a.ftype;
    if a.default.Some? && a.default.value != "" {
      var q := " DEFAULT '" + a.default.value + "'";
      assert q[|q| - 1] == '\'';
      UnlikeFlagSuffix(name + " " + t, q);
    } else if t == "" {
      UnlikeFlagSuffix(name, " ");
    } else {
      TypeUnlikeFlag(t);
      UnlikeFlagSuffix(name + " ", t);
    }
    UnlikeFlagIsNoFlag(Head(name, a));
  }

  /** Every column type ends unlike a flag clause. */
  lemma TypeUnlikeFlag(t: string)
    requires TypeName(t)
    ensures UnlikeFlag(t)
  {
  }

  /** Whether a string ends unlike a flag clause depends only on its ending. */
  lemma UnlikeFlagSuffix(p: string, t: string)
    requires UnlikeFlag(t)
    ensures UnlikeFlag(p + t)
  {
    var h := p + t;
    assert h[|h| - 1] == t[|t| - 1];
    if |t| >= 2 {
      assert h[|h| - 2] == t[|t| - 2];
    }
    if |t| >= 3 {
      assert h[|h| - 3] == t[|t| - 3];
    }
  }

  /** All three flags of a parsed field can be read back from its intended column definition. */
  lemma FieldFlagsRoundTrip(name: string, spec: string)
    requires "" !in Split(spec, ',')
    ensures var a := ApplyAll(Unset, Split(spec, ','));
            FlagsOf(IntendedFieldSql(name, a)) == Flags(a.pk, a.autoinc, a.notnull)
  {
    var a := ApplyAll(Unset, Split(spec, ','));
    ParseMeaning(Unset, Split(spec, ','));
    HeadIsNotAFlag(name, a);
    FieldSqlFlags(name, a);
  }

  /**
   * From what `str(field)` prints, the primary-key and auto-increment flags
   * can be read back, but the not-null flag always reads as unset.
   */
  lemma NotNullLost(name: string, spec: string)
    requires "" !in Split(spec, ',')
    ensures var a := ApplyAll(Unset, Split(spec, ','));
            FlagsOf(FieldSql(name, a)) == Flags(a.pk, a.autoinc, false)
  {
    ParseMeaning(Unset, Split(spec, ','));
    PrintedFlags(name, ApplyAll(Unset, Split(spec, ',')));
  }

  /** With a declared type or none, the printed text gives back pk and autoinc, and never not-null. */
  lemma PrintedFlags(name: string, a: Attrs)
    ensures a.ftype == "" || TypeName(a.ftype) ==> FlagsOf(FieldSql(name, a)) == Flags(a.pk, a.autoinc, false)
  {
    var b := a.(notnull := false);
    assert Head(name, b) == Head(name, a);
    if a.ftype == "" || TypeName(a.ftype) {
      HeadIsNotAFlag(name, b);
      FieldSqlFlags(name, b);
    }
  }

  /** `field.idx(tname)`: the index statement, laid out piece by piece. */
  function IndexSql(tname: string, name: string): (r: string)
    ensures |r| == 21 + 2 * |tname| + 2 * |name|
    ensures var n := |tname| + 1 + |name|;
            && r[..13] == "CREATE INDEX " && r[13..13 + n] == tname + "_" + name
            && r[13 + n..17 + n] == " on " && r[17 + n..17 + n + |tname|] == tname
            && r[17 + n + |tname|..] == "(" + name + ");"
  {
    "CREATE INDEX " + tname + "_" + name + " on " + tname + "(" + name + ");"
  }

  /** Within one table, different columns give different index statements. */
  lemma IndexSqlInjective(tname: string, a: string, b: string)
    ensures IndexSql(tname, a) == IndexSql(tname, b) ==> a == b
  {
    var r := IndexSql(tname, a);
    if r == IndexSql(tname, b) {
      assert |a| == |b|;
      var n := |tname| + 1 + |a|;
      assert tname + "_" + a == tname + "_" + b;
      assert (tname + "_" + a)[|tname| + 1..] == a;
      assert (tname + "_" + b)[|tname| + 1..] == b;
    }
  }

  // ---------------------------------------------------------------------
  // Fields and tables

  /** A field as the statements see it. */
  datatype Column = Column(name: string, attrs: Attrs)

  /** `DBField`: a column whose attributes `parseSpec` sets token by token. */
  class DBField {
    const name: string
    const spec: string
    var ftype: string
    var pk: bool
    var autoinc: bool
    var index: bool
    var notnull: bool
    var default: Option<string>

    function Attributes(): Attrs
      reads this
    {
      Attrs(ftype, pk, autoinc, index, notnull, default)
    }

    function AsColumn(): Column
      reads this
    {
      Column(name, Attributes())
    }

    constructor Init(name: string, spec: string)
      ensures this.name == name && this.spec == spec && Attributes() == Unset
    {
      this.name := name;
      this.spec := spec;
      ftype := "";
      pk := false;
      autoinc := false;
      index := false;
      notnull := false;
      default := None;
    }

    /**
     * `DBField(name, spec)`: raises IndexError exactly when the spec has an
     * empty token (an empty spec is one empty token).
     */
    static method Create(name: string, spec: string) returns (r: Result<DBField>)
      ensures r.Err? <==> "" in Split(spec, ',')
      ensures r.Err? ==> r.error == IndexError
      ensures r.Ok? ==> fresh(r.value) && r.value.name == name && r.value.spec == spec
                        && r.value.Attributes() == ApplyAll(Unset, Split(spec, ','))
    {
      var f := new DBField.Init(name, spec);
      var o := f.ParseSpec(spec);
      if o.Fail? {
        return Err(o.error);
      }
      return Ok(f);
    }

    /** `parseSpec(spec)`: the tokens of `spec`, applied in order. */
    method ParseSpec(spec: string) returns (r: Outcome)
      modifies this
      ensures Attributes() == ApplyAll(old(Attributes()), Split(spec, ','))
      ensures r.Fail? <==> "" in Split(spec, ',')
      ensures r.Fail? ==> r.error == IndexError
    {
      var fields := Split(spec, ',');
      var i := 0;
      while i < |fields|
        invariant 0 <= i <= |fields|
        invariant ApplyAll(old(Attributes()), fields) == ApplyAll(Attributes(), fields[i..])
        invariant "" !in fields[..i]
      {
        var v := fields[i];
        assert fields[i..][0] == v && fields[i..][1..] == fields[i + 1..];
        assert fields[..i + 1] == fields[..i] + [v];
        if v == "I" {
          ftype := "INT";
        } else if v == "B" {
          ftype := "BIGINT";
        } else if v == "R" {
          ftype := "REAL";
        } else if v == "T" {
          ftype := "TEXT";
        } else if v == "Y" {
          ftype := "DATE";
        } else if |v| == 0 {
          return Fail(IndexError);
        } else if v[0] == 'C' {
          ftype := "CHAR(" + v[1..] + ")";
        } else if v[0] == 'V' {
          ftype := "VARCHAR(" + v[1..] + ")";
        } else if v == "N" {
          notnull := true;
        } else if v == "X" {
          index := true;
        } else if v == "P" {
          pk := true;
        } else if v == "A" {
          autoinc := true;
        } else if v[0] == 'D' {
          default := Some(v[1..]);
        }
        i := i + 1;
      }
      assert fields[..i] == fields;
      return Pass;
    }

    /**
     * `str(field)`: the column text as the code prints it. Whatever the
     * declared type, the primary-key and auto-increment flags read back
     * from it, and the not-null flag never does.
     */
    function Str(): (r: string)
      reads this
      ensures ftype == "" || TypeName(ftype) ==> FlagsOf(r) == Flags(pk, autoinc, false)
    {
      PrintedFlags(name, Attributes());
      FieldSql(name, Attributes())
    }

    /** `idx(tname)`. */
    function Idx(tname: string): string
    {
      IndexSql(tname, name)
    }
  }

  /** `[str(f) for f in fields]`. */
  function ColumnTexts(cs: seq<Column>): (r: seq<string>)
    ensures |r| == |cs| && forall i :: 0 <= i < |cs| ==> r[i] == FieldSql(cs[i].name, cs[i].attrs)
  {
    seq(|cs|, i requires 0 <= i < |cs| => FieldSql(cs[i].name, cs[i].attrs))
  }

  /** `", ".join([str(f) for f in fields])`. */
  function ColumnList(cs: seq<Column>): string
  {
    Join(ColumnTexts(cs), ", ")
  }

  /** `create()`. */
  function CreateSql(tname: string, cs: seq<Column>): (r: string)
    ensures |r| == 17 + |tname| + |ColumnList(cs)|
    ensures var n := |tname|;
            && r[..13] == "CREATE TABLE " && r[13..13 + n] == tname && r[13 + n..15 + n] == " ("
            && r[15 + n..|r| - 2] == ColumnList(cs) && r[|r| - 2..] == ");"
  {
    "CREATE TABLE " + tname + " (" + ColumnList(cs) + ");"
  }

  /**
   * The column list holds every column's text, in column order, each at the
   * offset the texts before it and their separators take up, and followed by
   * `, ` unless it is the last; `CreateSql` puts that list between the
   * parentheses.
   */
  lemma ColumnListHoldsTexts(cs: seq<Column>, i: nat)
    requires i < |cs|
    ensures var t := ColumnTexts(cs)[i];
            var o := Offset(ColumnTexts(cs), ", ", i);
            && o + |t| <= |ColumnList(cs)| && ColumnList(cs)[o..o + |t|] == t
            && (i + 1 < |cs| ==> o + |t| + 2 <= |ColumnList(cs)| && ColumnList(cs)[o + |t|..o + |t| + 2] == ", ")
  {
    JoinAt(ColumnTexts(cs), ", ", i);
  }

  /** `drop()`. */
  function DropSql(tname: string): (r: string)
    ensures |r| == 22 + |tname|
    ensures r[..21] == "DROP TABLE IF EXISTS " && r[21..|r| - 1] == tname && r[|r| - 1] == ';'
  {
    "DROP TABLE IF EXISTS " + tname + ";"
  }

  /** `empty()`. */
  function EmptySql(tname: string): (r: string)
    ensures |r| == 13 + |tname|
    ensures r[..12] == "DELETE FROM " && r[12..|r| - 1] == tname && r[|r| - 1] == ';'
  {
    "DELETE FROM " + tname + ";"
  }

  /** Different tables get different drop statements. */
  lemma DropSqlInjective(t: string, u: string)
    ensures DropSql(t) == DropSql(u) ==> t == u
  {
    if DropSql(t) == DropSql(u) {
      assert |t| == |u|;
      assert t == DropSql(t)[21..|DropSql(t)| - 1];
    }
  }

  /** Different tables get different empty statements. */
  lemma EmptySqlInjective(t: string, u: string)
    ensures EmptySql(t) == EmptySql(u) ==> t == u
  {
    if EmptySql(t) == EmptySql(u) {
      assert |t| == |u|;
      assert t == EmptySql(t)[12..|EmptySql(t)| - 1];
    }
  }

  /** A drop statement is never an empty statement, whatever the two tables. */
  lemma DropIsNotEmpty(t: string, u: string)
    ensures DropSql(t) != EmptySql(u)
  {
    assert DropSql(t)[..21][1] == 'R' && EmptySql(u)[..12][1] == 'E';
  }

  /** The positions of the indexed columns, in order. */
  function Indexed(cs: seq<Column>): (ps: seq<nat>)
    ensures forall k :: 0 <= k < |ps| ==> ps[k] < |cs| && cs[ps[k]].attrs.index
    ensures forall k, l :: 0 <= k < l < |ps| ==> ps[k] < ps[l]
    ensures forall j :: 0 <= j < |cs| && cs[j].attrs.index ==> j in ps
  {
    if |cs| == 0 then []
    else
      var rest := Indexed(cs[..|cs| - 1]);
      if cs[|cs| - 1].attrs.index then rest + [|cs| - 1] else rest
  }

  /** `indexes()`: one index statement per indexed column, in column order. */
  function IndexesSql(tname: string, cs: seq<Column>): (r: seq<string>)
    ensures |r| == |Indexed(cs)|
    ensures forall k :: 0 <= k < |r| ==> r[k] == IndexSql(tname, cs[Indexed(cs)[k]].name)
  {
    if |cs| == 0 then []
    else
      var rest := IndexesSql(tname, cs[..|cs| - 1]);
      if cs[|cs| - 1].attrs.index then rest + [IndexSql(tname, cs[|cs| - 1].name)] else rest
  }

  /** A table with distinct column names gets a different statement for each indexed column. */
  lemma IndexesDistinct(tname: string, cs: seq<Column>)
    requires forall i, j :: 0 <= i < j < |cs| ==> cs[i].name != cs[j].name
    ensures var r := IndexesSql(tname, cs);
            forall k, l :: 0 <= k < l < |r| ==> r[k] != r[l]
  {
    var r := IndexesSql(tname, cs);
    var ps := Indexed(cs);
    forall k, l | 0 <= k < l < |r| ensures r[k] != r[l] {
      assert ps[k] < ps[l];
      IndexSqlInjective(tname, cs[ps[k]].name, cs[ps[l]].name);
    }
  }
  class DBTable {
    const name: string
    const fields: seq<DBField>

    ghost predicate Valid()
    {
      forall i, j :: 0 <= i < j < |fields| ==> fields[i] != fields[j]
    }

    /** The columns as the statements see them. */
    function Columns(): (cs: seq<Column>)
      reads fields
      ensures |cs| == |fields| && forall i :: 0 <= i < |fields| ==> cs[i] == fields[i].AsColumn()
    {
      seq(|fields|, i requires 0 <= i < |fields| reads fields => fields[i].AsColumn())
    }

    constructor Init(name: string, fields: seq<DBField>)
      ensures this.name == name && this.fields == fields
    {
      this.name := name;
      this.fields := fields;
    }

    /**
     * `DBTable(name, (n1, s1), ...)`: one new field per pair, in order;
     * the first spec with an empty token raises IndexError.
     */
    static method Create(name: string, specs: seq<(string, string)>) returns (r: Result<DBTable>)
      ensures r.Err? <==> exists i :: 0 <= i < |specs| && "" in Split(specs[i].1, ',')
      ensures r.Ok? ==> && fresh(r.value) && r.value.name == name && r.value.Valid()
                        && |r.value.fields| == |specs|
                        && forall i :: 0 <= i < |specs| ==>
                             && fresh(r.value.fields[i])
                             && r.value.fields[i].AsColumn() == Column(specs[i].0, ApplyAll(Unset, Split(specs[i].1, ',')))
    {
      var fs: seq<DBField> := [];
      var i := 0;
      while i < |specs|
        invariant 0 <= i <= |specs| && |fs| == i
        invariant forall k :: 0 <= k < i ==> "" !in Split(specs[k].1, ',')
        invariant forall k :: 0 <= k < i ==>
                    fresh(fs[k]) && fs[k].AsColumn() == Column(specs[k].0, ApplyAll(Unset, Split(specs[k].1, ',')))
        invariant forall k, l :: 0 <= k < l < i ==> fs[k] != fs[l]
      {
        var f := DBField.Create(specs[i].0, specs[i].1);
        if f.Err? {
          return Err(f.error);
        }
        fs := fs + [f.value];
        i := i + 1;
      }
      var t := new DBTable.Init(name, fs);
      return Ok(t);
    }

    /** `create()`. */
    function CreateStatement(): string
      reads fields
    {
      CreateSql(name, Columns())
    }

    /** `drop()`. */
    function Drop(): string
    {
      DropSql(name)
    }

    /** `empty()`. */
    function Empty(): string
    {
      EmptySql(name)
    }

    /** `indexes()`: collects `idx(name)` of each field whose index flag is set. */
    method Indexes() returns (l: seq<string>)
      ensures l == IndexesSql(name, Columns())
    {
      l := [];
      var i := 0;
      while i < |fields|
        invariant 0 <= i <= |fields|
        invariant l == IndexesSql(name, Columns()[..i])
      {
        var f := fields[i];
        assert Columns()[..i + 1][..i] == Columns()[..i];
        if f.index {
          l := l + [f.Idx(name)];
        }
        i := i + 1;
      }
      assert Columns()[..i] == Columns();
    }
  }

  /** The second spec of the module's example, split. */
  lemma ExampleSplit()
    ensures Split("C5,X,N,D'abc'", ',') == ["C5", "X", "N", "D'abc'"]
  {
    var parts := ["C5", "X", "N", "D'abc'"];
    assert Join(parts, ",") == "C5,X,N,D'abc'" by {
      assert parts[1..] == ["X", "N", "D'abc'"] && parts[1..][1..] == ["N", "D'abc'"];
      assert parts[1..][1..][1..] == ["D'abc'"];
    }
    SplitJoin(parts, ',');
  }

  /** Its tokens, one at a time. */
  lemma ExampleAttrs()
    ensures ApplyAll(Unset, ["C5", "X", "N", "D'abc'"]) == Attrs("CHAR(5)", false, false, true, true, Some("'abc'"))
  {
    var parts := ["C5", "X", "N", "D'abc'"];
    assert "C5"[1..] == "5" && "D'abc'"[1..] == "'abc'";
    assert "CHAR(" + "5" + ")" == "CHAR(5)";
    var a1 := Unset.(ftype := "CHAR(5)");
    var a2 := a1.(index := true);
    var a3 := a2.(notnull := true);
    var a4 := a3.(default := Some("'abc'"));
    assert Apply(Unset, "C5") == Ok(a1);
    assert Apply(a1, "X") == Ok(a2);
    assert Apply(a2, "N") == Ok(a3);
    assert Apply(a3, "D'abc'") == Ok(a4);
    var e: seq<string> := [];
    assert ApplyAll(a4, e) == a4;
    assert ApplyAll(a3, ["D'abc'"]) == a4 by { assert ["D'abc'"][1..] == e; }
    assert ApplyAll(a2, ["N", "D'abc'"]) == a4 by { assert ["N", "D'abc'"][1..] == ["D'abc'"]; }
    assert ApplyAll(a1, ["X", "N", "D'abc'"]) == a4 by { assert ["X", "N", "D'abc'"][1..] == ["N", "D'abc'"]; }
    assert parts[1..] == ["X", "N", "D'abc'"];
  }

  /**
   * The columns of the module's example. The second is declared `N`, yet
   * its printed text has no `NOT NULL`; the intended text would.
   */
  lemma ExampleColumns()
    ensures FieldSql("test", Unset.(ftype := "TEXT")) == "test TEXT"
    ensures FieldSql("test2", Attrs("CHAR(5)", false, false, true, true, Some("'abc'")))
            == "test2 CHAR(5) DEFAULT ''abc''"
    ensures IntendedFieldSql("test2", Attrs("CHAR(5)", false, false, true, true, Some("'abc'")))
            == "test2 CHAR(5) DEFAULT ''abc'' NOT NULL"
  {
    ExampleTextColumn();
    ExampleCharColumn();
  }

  lemma ExampleTextColumn()
    ensures FieldSql("test", Unset.(ftype := "TEXT")) == "test TEXT"
  {
    var t := Unset.(ftype := "TEXT");
    assert DefaultClause(None) == "";
    assert Head("test", t) == "test TEXT" by {
      assert "test" + " " + "TEXT" == "test TEXT";
      assert "test TEXT" + "" == "test TEXT";
    }
    assert FieldSql("test", t) == Head("test", t) + "" + "";
    assert "test TEXT" + "" + "" == "test TEXT";
  }

  lemma ExampleCharColumn()
    ensures FieldSql("test2", Attrs("CHAR(5)", false, false, true, true, Some("'abc'")))
            == "test2 CHAR(5) DEFAULT ''abc''"
    ensures IntendedFieldSql("test2", Attrs("CHAR(5)", false, false, true, true, Some("'abc'")))
            == "test2 CHAR(5) DEFAULT ''abc'' NOT NULL"
  {
    var a := Attrs("CHAR(5)", false, false, true, true, Some("'abc'"));
    var d := " DEFAULT ''abc''";
    assert DefaultClause(Some("'abc'")) == d by {
      assert " DEFAULT '" + "'abc'" + "'" == d;
    }
    var h := "test2 CHAR(5) DEFAULT ''abc''";
    assert Head("test2", a) == h by {
      assert "test2" + " " + "CHAR(5)" + d == h;
    }
    assert FieldSql("test2", a) == h + "" + "";
    assert h + "" + "" == h;
    assert IntendedFieldSql("test2", a) == h + "" + "" + " NOT NULL";
    assert h + "" + "" + " NOT NULL" == "test2 CHAR(5) DEFAULT ''abc'' NOT NULL";
  }

  /**
   * The table of the module's example: a text column and an indexed
   * `CHAR(5)` column whose default keeps its own quotes; its `N` is not
   * printed.
   */
  lemma ExampleTable(c1: Column, c2: Column)
    requires c1 == Column("test", ApplyAll(Unset, Split("T", ',')))
    requires c2 == Column("test2", ApplyAll(Unset, Split("C5,X,N,D'abc'", ',')))
    ensures CreateSql("table1", [c1, c2])
            == "CREATE TABLE table1 (" + "test TEXT" + ", " + "test2 CHAR(5) DEFAULT ''abc''" + ");"
    ensures IndexesSql("table1", [c1, c2]) == ["CREATE INDEX " + "table1_test2" + " on " + "table1(test2);"]
  {
    var t := Unset.(ftype := "TEXT");
    var a := Attrs("CHAR(5)", false, false, true, true, Some("'abc'"));
    ExampleText();
    ExampleSplit();
    ExampleAttrs();
    ExampleStatements(Column("test", t), Column("test2", a));
  }

  /** The first spec of the module's example. */
  lemma ExampleText()
    ensures ApplyAll(Unset, Split("T", ',')) == Unset.(ftype := "TEXT")
  {
    var t := Unset.(ftype := "TEXT");
    SplitPlain("T", ',');
    assert Apply(Unset, "T") == Ok(t);
    var e: seq<string> := [];
    assert ApplyAll(t, e) == t;
    assert ["T"][1..] == e;
  }

  /** The statements of the example table, from its columns. */
  lemma ExampleStatements(c1: Column, c2: Column)
    requires c1 == Column("test", Unset.(ftype := "TEXT"))
    requires c2 == Column("test2", Attrs("CHAR(5)", false, false, true, true, Some("'abc'")))
    ensures CreateSql("table1", [c1, c2])
            == "CREATE TABLE table1 (" + "test TEXT" + ", " + "test2 CHAR(5) DEFAULT ''abc''" + ");"
    ensures IndexesSql("table1", [c1, c2]) == ["CREATE INDEX " + "table1_test2" + " on " + "table1(test2);"]
  {
    ExampleCreate(c1, c2);
    ExampleIndexes(c1, c2);
  }

  lemma ExampleCreate(c1: Column, c2: Column)
    requires c1 == Column("test", Unset.(ftype := "TEXT"))
    requires c2 == Column("test2", Attrs("CHAR(5)", false, false, true, true, Some("'abc'")))
    ensures CreateSql("table1", [c1, c2])
            == "CREATE TABLE table1 (" + "test TEXT" + ", " + "test2 CHAR(5) DEFAULT ''abc''" + ");"
  {
    ExampleColumns();
    var cs := [c1, c2];
    var l1, l2 := "test TEXT", "test2 CHAR(5) DEFAULT ''abc''";
    assert ColumnTexts(cs) == [l1, l2];
    assert ColumnList(cs) == l1 + ", " + l2 by {
      assert [l1, l2][1..] == [l2];
      assert Join([l1, l2], ", ") == l1 + ", " + Join([l2], ", ");
    }
    assert "CREATE TABLE " + "table1" + " (" == "CREATE TABLE table1 (";
  }

  lemma IndexSqlPieces(t: string, n: string)
    ensures IndexSql(t, n) == "CREATE INDEX " + (t + "_" + n) + " on " + (t + "(" + n + ");")
  {
  }

  lemma ExampleIndexes(c1: Column, c2: Column)
    requires c1 == Column("test", Unset.(ftype := "TEXT"))
    requires c2 == Column("test2", Attrs("CHAR(5)", false, false, true, true, Some("'abc'")))
    ensures IndexesSql("table1", [c1, c2]) == ["CREATE INDEX " + "table1_test2" + " on " + "table1(test2);"]
  {
    var cs := [c1, c2];
    assert IndexesSql("table1", [c1]) == [] by {
      assert [c1][..0] == [];
    }
    assert IndexesSql("table1", cs) == [IndexSql("table1", "test2")] by {
      assert cs[..1] == [c1];
    }
    IndexSqlPieces("table1", "test2");
    ExampleIndexPieces();
  }

  lemma ExampleIndexPieces()
    ensures "table1" + "_" + "test2" == "table1_test2"
    ensures "table1" + "(" + "test2" + ");" == "table1(test2);"
  {
  }

  // ---------------------------------------------------------------------
  // The table registry

  /** The registry built from `tables` in order: a later table replaces an earlier one of the same name. */
  function Registry(tables: seq<DBTable>): map<string, DBTable>
  {
    if |tables| == 0 then map[] else Registry(tables[..|tables| - 1])[tables[|tables| - 1].name := tables[|tables| - 1]]
  }

  /** The names of the given tables. */
  function Names(tables: seq<DBTable>): set<string>
  {
    set i | 0 <= i < |tables| :: tables[i].name
  }

  /** The registry holds every name, each mapped to the last table of that name. */
  lemma {:induction false} RegistryMeaning(tables: seq<DBTable>)
    ensures Registry(tables).Keys == Names(tables)
    ensures forall i :: 0 <= i < |tables| && (forall j :: i < j < |tables| ==> tables[j].name != tables[i].name)
                        ==> Registry(tables)[tables[i].name] == tables[i]
  {
    if |tables| > 0 {
      var init := tables[..|tables| - 1];
      RegistryMeaning(init);
      assert forall i :: 0 <= i < |init| ==> init[i] == tables[i];
      assert Names(tables) == Names(init) + {tables[|tables| - 1].name} by {
        forall n | n in Names(tables) ensures n in Names(init) + {tables[|tables| - 1].name} {
          var i :| 0 <= i < |tables| && tables[i].name == n;
          if i < |init| { assert init[i].name == n; }
        }
      }
    }
  }

  /** `Database`: its table registry (the connection is not modelled). */
  class Database {
    var tables: map<string, DBTable>

    /** `Database(tables)`: each table registered under its name, in order. */
    constructor (ts: seq<DBTable>)
      ensures tables == Registry(ts)
    {
      var m: map<string, DBTable> := map[];
      var i := 0;
      while i < |ts|
        invariant 0 <= i <= |ts|
        invariant m == Registry(ts[..i])
      {
        assert ts[..i + 1][..i] == ts[..i];
        m := m[ts[i].name := ts[i]];
        i := i + 1;
      }
      assert ts[..i] == ts;
      tables := m;
    }

    /** `addTable(tab)`: registers `tab` under its name, replacing any table of that name. */
    method AddTable(tab: DBTable)
      modifies this
      ensures tables == old(tables)[tab.name := tab]
    {
      tables := tables[tab.name := tab];
    }

    /** `getTable(tablename)`. */
    function GetTable(tablename: string): (r: Option<DBTable>)
      reads this
      ensures r == Dget(tables, tablename)
    {
      if tablename in tables then Some(tables[tablename]) else None
    }
  }
}
