/** The column schema of an ask/tell session: `"name:domain"` specifiers,
    the positional row that `tell` builds from a parameter dictionary, and
    the dictionary that `_mk_param` rebuilds from a row. */
module Schema {
  import opened Common

  /** Concatenates `parts` with `sep` between neighbours: the inverse of Split. */
  function Join(parts: seq<string>, sep: char): string
    requires |parts| >= 1
    decreases |parts|
  {
    if |parts| == 1 then parts[0] else parts[0] + [sep] + Join(parts[1..], sep)
  }

  lemma JoinConsHead(c: char, parts: seq<string>, sep: char)
    requires |parts| >= 1
    ensures Join([[c] + parts[0]] + parts[1..], sep) == [c] + Join(parts, sep)
  {
    var ps := [[c] + parts[0]] + parts[1..];
    if |parts| > 1 {
      assert ps[1..] == parts[1..];
    }
  }

  /** Python's `s.split(sep)`: the pieces between occurrences of `sep`,
      empty pieces included, so there is always at least one. */
  function Split(s: string, sep: char): (parts: seq<string>)
    ensures |parts| >= 1
    ensures forall i :: 0 <= i < |parts| ==> sep !in parts[i]
    ensures Join(parts, sep) == s
  {
    if s == [] then [""]
    else
      var rest := Split(s[1..], sep);
      if s[0] == sep then
        assert ([""] + rest)[1..] == rest;
        [""] + rest
      else
        JoinConsHead(s[0], rest, sep);
        [[s[0]] + rest[0]] + rest[1..]
  }

  /** `k.split(":")[0]`: the name part of a column spec, as `tell` reads it.
      It is the text before the first colon, or the whole spec. */
  function ColumnName(spec: string): (name: string)
    ensures ':' !in name
    ensures name == spec || (|name| < |spec| && spec[..|name|] == name && spec[|name|] == ':')
  {
    if spec == [] || spec[0] == ':' then []
    else
      var rest := ColumnName(spec[1..]);
      assert rest != spec[1..] ==> spec[..|rest| + 1] == [spec[0]] + rest;
      [spec[0]] + rest
  }

  /** ColumnName is the first piece of the split on ':'. */
  lemma {:induction false} ColumnNameIsSplitHead(spec: string)
    ensures ColumnName(spec) == Split(spec, ':')[0]
  {
    if spec != [] {
      ColumnNameIsSplitHead(spec[1..]);
    }
  }

  /** The kind of a parameter, from the first character of its domain. */
  datatype Domain = Continuous | Categorical | Untyped

  function DomainOf(domainText: string): Domain
    requires domainText != ""
  {
    if domainText[0] == '[' then Continuous
    else if domainText[0] == '{' then Categorical
    else Untyped
  }

  /** A parsed column spec `name:domainText`. */
  datatype Column = Column(name: string, domainText: string)

  /** `nm, dm = spec.split(":")` followed by `dm[0]`: fails unless the spec
      holds exactly one colon, and then unless the domain part is non-empty. */
  function ParseSpec(spec: string): (r: Result<Column>)
    ensures r.Success? <==> |Split(spec, ':')| == 2 && Split(spec, ':')[1] != ""
    ensures r.Success? ==>
      && spec == r.value.name + [':'] + r.value.domainText
      && ':' !in r.value.name && ':' !in r.value.domainText
      && r.value.domainText != ""
      && r.value.name == ColumnName(spec)
    ensures r.Failure? ==>
      r.error == (if |Split(spec, ':')| != 2 then BadSpec(spec) else EmptyDomain(spec))
  {
    var parts := Split(spec, ':');
    ColumnNameIsSplitHead(spec);
    if |parts| != 2 then Failure(BadSpec(spec))
    else
      assert parts[1..] == [parts[1]];
      assert Join(parts[1..], ':') == parts[1];
      if parts[1] == "" then Failure(EmptyDomain(spec))
      else Success(Column(parts[0], parts[1]))
  }

  /** Whether a value already has the type its domain asks for. */
  predicate HasType(d: Domain, v: Value) {
    match d
    case Continuous => v.Num?
    case Categorical => v.Int?
    case Untyped => true
  }

  /** Python's `int()` of a float: truncation toward zero. */
  function Truncate(x: real): (t: int)
    ensures 0.0 <= x ==> 0 <= t && t as real <= x < t as real + 1.0
    ensures x < 0.0 ==> t <= 0 && t as real - 1.0 < x <= t as real
  {
    if x >= 0.0 then x.Floor else -((-x).Floor)
  }

  /** `float(x)` for a `[` domain, `int(x)` for a `{` domain, `x` otherwise. */
  function Coerce(d: Domain, v: Value): (r: Result<Value>)
    ensures r.Failure? <==> d != Untyped && v.Text?
    ensures r.Failure? ==> r.error == NotNumeric(v)
    ensures r.Success? ==> HasType(d, r.value)
    ensures HasType(d, v) ==> r == Success(v)
    ensures d == Continuous && v.Int? ==> r.value.r == v.i as real
    ensures d == Categorical && v.Num? ==> r.value.i == Truncate(v.r)
  {
    match d
    case Untyped => Success(v)
    case Continuous =>
      (match v
       case Num(_) => Success(v)
       case Int(i) => Success(Num(i as real))
       case Text(_) => Failure(NotNumeric(v)))
    case Categorical =>
      (match v
       case Num(x) => Success(Int(Truncate(x)))
       case Int(_) => Success(v)
       case Text(_) => Failure(NotNumeric(v)))
  }

  /** One iteration of `_mk_param`: the key and the coerced value for the
      cell `x` under the column spec `spec`. */
  function DecodeCell(spec: string, x: Value): (r: Result<(string, Value)>)
    ensures r.Success? <==>
      ParseSpec(spec).Success? && Coerce(DomainOf(ParseSpec(spec).value.domainText), x).Success?
    ensures r.Success? ==>
      && r.value == (ColumnName(spec), Coerce(DomainOf(ParseSpec(spec).value.domainText), x).value)
      && HasType(DomainOf(ParseSpec(spec).value.domainText), r.value.1)
    ensures ParseSpec(spec).Failure? ==> r == Failure(ParseSpec(spec).error)
    ensures ParseSpec(spec).Success? && r.Failure? ==>
      r == Failure(Coerce(DomainOf(ParseSpec(spec).value.domainText), x).error)
  {
    var c := ParseSpec(spec);
    if c.Failure? then Failure(c.error)
    else
      var v := Coerce(DomainOf(c.value.domainText), x);
      if v.Failure? then Failure(v.error)
      else Success((c.value.name, v.value))
  }

  /** The cells `_mk_param` decodes: one per position below both the row
      length and the number of columns. */
  function Cells(columns: seq<string>, row: seq<Value>): (cs: seq<Result<(string, Value)>>)
    ensures |cs| == Min(|columns|, |row|)
    ensures forall i :: 0 <= i < |cs| ==> cs[i] == DecodeCell(columns[i], row[i])
  {
    seq(Min(|columns|, |row|), i requires 0 <= i < Min(|columns|, |row|) => DecodeCell(columns[i], row[i]))
  }

  /** `_mk_param(row)`: the dictionary of the decoded cells, or the error of
      the first cell that fails. */
  function DecodeRow(columns: seq<string>, row: seq<Value>): (r: Result<Params>)
    ensures r.Success? <==> forall i :: 0 <= i < Min(|columns|, |row|) ==> DecodeCell(columns[i], row[i]).Success?
  {
    Collect(Cells(columns, row))
  }

  /** No column in `columns[i+1..n]` has the name of column `i`. */
  predicate LastNamed(columns: seq<string>, n: nat, i: nat)
    requires i < n <= |columns|
  {
    forall j :: i < j < n ==> ColumnName(columns[j]) != ColumnName(columns[i])
  }

  /** The keys `_mk_param` returns: the names of the columns it looks at. */
  lemma DecodeRowKeys(columns: seq<string>, row: seq<Value>)
    requires DecodeRow(columns, row).Success?
    ensures DecodeRow(columns, row).value.Keys == set i | 0 <= i < Min(|columns|, |row|) :: ColumnName(columns[i])
  {
    var cells := Cells(columns, row);
    var n := Min(|columns|, |row|);
    CollectContents(cells);
    assert forall i :: 0 <= i < n ==> cells[i].value.0 == ColumnName(columns[i]);
    assert (set i | 0 <= i < n :: cells[i].value.0) == (set i | 0 <= i < n :: ColumnName(columns[i]));
  }

  /** The values `_mk_param` returns: under each name, the coerced value of
      the last cell that carries it. */
  lemma DecodeRowValues(columns: seq<string>, row: seq<Value>)
    requires DecodeRow(columns, row).Success?
    ensures forall i :: 0 <= i < Min(|columns|, |row|) && LastNamed(columns, Min(|columns|, |row|), i) ==>
      (&& ParseSpec(columns[i]).Success?
       && ColumnName(columns[i]) in DecodeRow(columns, row).value
       && DecodeRow(columns, row).value[ColumnName(columns[i])]
          == Coerce(DomainOf(ParseSpec(columns[i]).value.domainText), row[i]).value)
  {
    var cells := Cells(columns, row);
    var n := Min(|columns|, |row|);
    var q := Collect(cells).value;
    CollectContents(cells);
    forall i | 0 <= i < n && LastNamed(columns, n, i)
      ensures ParseSpec(columns[i]).Success?
      ensures ColumnName(columns[i]) in q
      ensures q[ColumnName(columns[i])] == Coerce(DomainOf(ParseSpec(columns[i]).value.domainText), row[i]).value
    {
      assert cells[i] == DecodeCell(columns[i], row[i]);
      forall j | i < j < n
        ensures cells[j].value.0 != cells[i].value.0
      {
        assert cells[j] == DecodeCell(columns[j], row[j]);
      }
      assert LastWithKey(cells, i);
      assert cells[i].value.0 in (set k | 0 <= k < n :: cells[k].value.0);
    }
  }

  /** A failing `_mk_param` raises the error of the first cell that fails. */
  lemma DecodeRowFailure(columns: seq<string>, row: seq<Value>)
    ensures DecodeRow(columns, row).Failure? ==>
      exists k :: 0 <= k < Min(|columns|, |row|)
        && DecodeCell(columns[k], row[k]) == Failure(DecodeRow(columns, row).error)
        && forall j :: 0 <= j < k ==> DecodeCell(columns[j], row[j]).Success?
  {
    CollectFailure(Cells(columns, row));
  }

  /** Values after the first `len(columns)` do not matter to `_mk_param`. */
  lemma DecodeIgnoresTail(columns: seq<string>, row: seq<Value>, extra: seq<Value>)
    requires |columns| <= |row|
    ensures DecodeRow(columns, row + extra) == DecodeRow(columns, row)
  {
    assert Cells(columns, row + extra) == Cells(columns, row);
  }

  /** `_clean_design`: one dictionary per design row, in row order, or the
      first error raised. */
  function DecodeDesign(columns: seq<string>, rows: seq<seq<Value>>): (r: Result<seq<Params>>)
    ensures r.Success? <==> forall i :: 0 <= i < |rows| ==> DecodeRow(columns, rows[i]).Success?
    ensures r.Success? ==> |r.value| == |rows| && forall i :: 0 <= i < |rows| ==> DecodeRow(columns, rows[i]) == Success(r.value[i])
    ensures r.Failure? ==>
      (exists k :: 0 <= k < |rows| && DecodeRow(columns, rows[k]) == Failure(r.error)
         && forall j :: 0 <= j < k ==> DecodeRow(columns, rows[j]).Success?)
  {
    TraverseFailure(rows, row => DecodeRow(columns, row));
    Traverse(rows, row => DecodeRow(columns, row))
  }

  /** One row more of `_clean_design`: a decoded row is appended, and a
      row that fails makes the whole design fail with its error. */
  lemma DecodeDesignStep(columns: seq<string>, rows: seq<seq<Value>>, i: nat, ps: seq<Params>)
    requires i < |rows| && DecodeDesign(columns, rows[..i]) == Success(ps)
    ensures DecodeRow(columns, rows[i]).Success? ==>
      DecodeDesign(columns, rows[..i + 1]) == Success(ps + [DecodeRow(columns, rows[i]).value])
    ensures DecodeRow(columns, rows[i]).Failure? ==>
      DecodeDesign(columns, rows) == Failure(DecodeRow(columns, rows[i]).error)
  {
    assert rows[..i + 1][..i] == rows[..i];
    if DecodeRow(columns, rows[i]).Failure? {
      TraverseStops(rows, row => DecodeRow(columns, row), i);
    }
  }

  /** `[params[k.split(":")[0]] for k in columns]`: the parameter values in
      schema order, or a key-lookup error for the first name missing. */
  function Encode(columns: seq<string>, params: Params): (r: Result<seq<Value>>)
    ensures r.Success? ==> |r.value| == |columns|
  {
    if columns == [] then Success([])
    else
      var name := ColumnName(columns[0]);
      if name !in params then Failure(KeyLookup(name))
      else
        var rest := Encode(columns[1..], params);
        if rest.Failure? then rest
        else Success([params[name]] + rest.value)
  }

  /** Encode succeeds exactly when every column's name is a key, and then
      lists the values in column order. */
  lemma {:induction false} EncodeSpec(columns: seq<string>, params: Params)
    ensures Encode(columns, params).Success? <==> forall i :: 0 <= i < |columns| ==> ColumnName(columns[i]) in params
    ensures Encode(columns, params).Success? ==>
      forall i :: 0 <= i < |columns| ==> Encode(columns, params).value[i] == params[ColumnName(columns[i])]
  {
    if columns != [] {
      var tail := columns[1..];
      EncodeSpec(tail, params);
      assert forall i :: 0 <= i < |tail| ==> tail[i] == columns[i + 1];
    }
  }

  /** A failed Encode reports the first name missing from the dictionary. */
  lemma {:induction false} EncodeFirstMissing(columns: seq<string>, params: Params)
    ensures Encode(columns, params).Failure? ==>
      exists k :: 0 <= k < |columns| && ColumnName(columns[k]) !in params
        && Encode(columns, params).error == KeyLookup(ColumnName(columns[k]))
        && forall j :: 0 <= j < k ==> ColumnName(columns[j]) in params
  {
    if columns != [] && Encode(columns, params).Failure? && ColumnName(columns[0]) in params {
      var tail := columns[1..];
      EncodeFirstMissing(tail, params);
      assert forall i :: 0 <= i < |tail| ==> tail[i] == columns[i + 1];
      var k :| 0 <= k < |tail| && ColumnName(tail[k]) !in params
         && Encode(tail, params).error == KeyLookup(ColumnName(tail[k]))
         && forall j :: 0 <= j < k ==> ColumnName(tail[j]) in params;
      assert ColumnName(columns[k + 1]) !in params;
    }
  }

  /** The names of a schema's columns. */
  function Names(columns: seq<string>): set<string> {
    set i | 0 <= i < |columns| :: ColumnName(columns[i])
  }

  /** Every spec parses and no two columns share a name. */
  predicate WellFormedSchema(columns: seq<string>) {
    && (forall i :: 0 <= i < |columns| ==> ParseSpec(columns[i]).Success?)
    && (forall i, j :: 0 <= i < j < |columns| ==> ColumnName(columns[i]) != ColumnName(columns[j]))
  }

  /** The dictionary holds every schema name, with a value of its domain's type. */
  predicate Typed(columns: seq<string>, params: Params)
    requires WellFormedSchema(columns)
  {
    forall i :: 0 <= i < |columns| ==>
      ColumnName(columns[i]) in params
      && HasType(DomainOf(ParseSpec(columns[i]).value.domainText), params[ColumnName(columns[i])])
  }

  /** A value already of its domain's type decodes to itself. */
  lemma DecodeCellTyped(spec: string, v: Value)
    requires ParseSpec(spec).Success?
    requires HasType(DomainOf(ParseSpec(spec).value.domainText), v)
    ensures DecodeCell(spec, v) == Success((ColumnName(spec), v))
  {
  }

  /** The restriction of `params` to the schema names. */
  function Restrict(params: Params, names: set<string>): (m: Params)
    ensures m.Keys == params.Keys * names
    ensures forall k :: k in m ==> m[k] == params[k]
  {
    map k | k in params && k in names :: params[k]
  }

  /** The cells `_mk_param` sees in an encoded row: cell i is column i's
      name with the dictionary's value under it. */
  lemma EncodedCells(columns: seq<string>, params: Params)
    requires WellFormedSchema(columns) && Typed(columns, params)
    ensures Encode(columns, params).Success?
    ensures var cells := Cells(columns, Encode(columns, params).value);
      && |cells| == |columns|
      && forall i :: 0 <= i < |columns| ==>
           cells[i] == Success((ColumnName(columns[i]), params[ColumnName(columns[i])]))
  {
    EncodeSpec(columns, params);
    var x := Encode(columns, params).value;
    forall i | 0 <= i < |columns|
      ensures DecodeCell(columns[i], x[i]) == Success((ColumnName(columns[i]), params[ColumnName(columns[i])]))
    {
      DecodeCellTyped(columns[i], x[i]);
    }
  }

  /** The names of a schema's columns, in column order. */
  function NameList(columns: seq<string>): (names: seq<string>)
    ensures |names| == |columns|
    ensures forall i :: 0 <= i < |columns| ==> names[i] == ColumnName(columns[i])
  {
    seq(|columns|, i requires 0 <= i < |columns| => ColumnName(columns[i]))
  }

  lemma NameListNames(columns: seq<string>)
    ensures (set i | 0 <= i < |columns| :: NameList(columns)[i]) == Names(columns)
  {
    var names := NameList(columns);
    assert forall i :: 0 <= i < |columns| ==> names[i] == ColumnName(columns[i]);
  }

  /** A dictionary on exactly `names` that agrees with `params` is the
      restriction of `params` to `names`; the last step of DecodeEncoded. */
  lemma RestrictExact(m: Params, params: Params, names: set<string>)
    requires m.Keys == names && names <= params.Keys
    requires forall k :: k in m ==> m[k] == params[k]
    ensures m == Restrict(params, names)
  {
  }

  /** Decoding an encoded row gives the dictionary restricted to the schema:
      every schema name once, with the dictionary's value. */
  lemma DecodeEncoded(columns: seq<string>, params: Params)
    requires WellFormedSchema(columns) && Typed(columns, params)
    ensures Encode(columns, params).Success?
    ensures DecodeRow(columns, Encode(columns, params).value) == Success(Restrict(params, Names(columns)))
  {
    EncodedCells(columns, params);
    var cells := Cells(columns, Encode(columns, params).value);
    CollectLookups(cells, NameList(columns), params);
    NameListNames(columns);
    RestrictExact(Collect(cells).value, params, Names(columns));
  }

  /** Encoding a dictionary as `tell` does and decoding the stored row as
      `_mk_param` does gives the dictionary back, restricted to the schema. */
  lemma {:induction false} RoundTrip(columns: seq<string>, params: Params, phi: real, se: Value)
    requires WellFormedSchema(columns) && Typed(columns, params)
    ensures Encode(columns, params).Success?
    ensures DecodeRow(columns, Encode(columns, params).value + [Num(phi), se])
         == Success(Restrict(params, Names(columns)))
  {
    DecodeEncoded(columns, params);
    DecodeIgnoresTail(columns, Encode(columns, params).value, [Num(phi), se]);
  }
}
