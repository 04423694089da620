/** The ask/tell session, class `AskTell`: a fixed column schema, the
    append-only list of measurement rows, the favourite from the last
    analysis, and the running best of the metrics told. */
module Session {
  import opened Common
  import opened Schema
  import opened Transport

  /** `-1e99`, the running best before anything is told. */
  const Sentinel: real := -1e99

  /** The header the analysis table's estimate is read from. */
  const MetricEst: string := "metric_est"

  /** One triple of a `tell` call: a parameter dictionary, its metric `phi`
      and its standard error. */
  datatype Told = Told(params: Params, phi: real, se: Value)

  /** The pair `best()` returns. */
  datatype Scored = Scored(phi: real, params: Params)

  /** The pair `favorite()` returns: the analysis row's estimate and its
      decoded parameters. */
  datatype Estimate = Estimate(metric: Value, params: Params)

  /** The largest of the sentinel and every metric told, as `tell` keeps it
      in `_phi_best`. */
  function MaxPhi(log: seq<Told>): real {
    if log == [] then Sentinel
    else
      var m := MaxPhi(log[..|log| - 1]);
      if log[|log| - 1].phi > m then log[|log| - 1].phi else m
  }

  /** MaxPhi is an upper bound of every metric and of the sentinel, and it
      is the sentinel or one of the metrics. */
  lemma {:induction false} MaxPhiBounds(log: seq<Told>)
    ensures MaxPhi(log) >= Sentinel
    ensures forall i :: 0 <= i < |log| ==> log[i].phi <= MaxPhi(log)
    ensures MaxPhi(log) == Sentinel || exists i :: 0 <= i < |log| && log[i].phi == MaxPhi(log)
  {
    if log != [] {
      var init := log[..|log| - 1];
      MaxPhiBounds(init);
      assert forall i :: 0 <= i < |init| ==> log[i] == init[i];
    }
  }

  /** The running best, as `tell` keeps it in `_best`: replaced only by a
      metric strictly above every earlier one and the sentinel. */
  function BestOf(log: seq<Told>): Option<Scored> {
    if log == [] then None
    else
      var init := log[..|log| - 1];
      var t := log[|log| - 1];
      if t.phi > MaxPhi(init) then Some(Scored(t.phi, t.params)) else BestOf(init)
  }

  /** The best is absent until a metric exceeds the sentinel, and then it is
      the first triple that reached the maximum (a tie does not replace it). */
  lemma {:induction false} BestOfSpec(log: seq<Told>)
    ensures BestOf(log).None? <==> forall i :: 0 <= i < |log| ==> log[i].phi <= Sentinel
    ensures BestOf(log).Some? ==>
      && BestOf(log).value.phi == MaxPhi(log)
      && exists i :: 0 <= i < |log| && BestOf(log).value == Scored(log[i].phi, log[i].params)
           && forall j :: 0 <= j < i ==> log[j].phi < BestOf(log).value.phi
  {
    if log != [] {
      var init := log[..|log| - 1];
      var t := log[|log| - 1];
      MaxPhiBounds(init);
      BestOfSpec(init);
      assert forall i :: 0 <= i < |init| ==> log[i] == init[i];
      if t.phi > MaxPhi(init) {
        assert forall j :: 0 <= j < |log| - 1 ==> log[j].phi < t.phi;
      } else if BestOf(init).Some? {
        var i :| 0 <= i < |init| && BestOf(init).value == Scored(init[i].phi, init[i].params)
           && forall j :: 0 <= j < i ==> init[j].phi < BestOf(init).value.phi;
        assert log[i] == init[i];
      }
    }
  }

  /** Metrics that do not exceed the current maximum leave the best alone. */
  lemma {:induction false} BestOfKeptByTies(log: seq<Told>, more: seq<Told>)
    requires forall i :: 0 <= i < |more| ==> more[i].phi <= MaxPhi(log)
    ensures MaxPhi(log + more) == MaxPhi(log)
    ensures BestOf(log + more) == BestOf(log)
  {
    if more != [] {
      var init := more[..|more| - 1];
      BestOfKeptByTies(log, init);
      var all := log + more;
      assert all[..|all| - 1] == log + init;
      assert all[|all| - 1] == more[|more| - 1];
      assert MaxPhi(all) == MaxPhi(log + init);
      assert BestOf(all) == BestOf(log + init);
    } else {
      assert log + more == log;
    }
  }

  /** Appending one triple: the maximum and the best move only when its
      metric is strictly larger than every metric before it. */
  lemma AppendOne(log: seq<Told>, t: Told)
    ensures MaxPhi(log + [t]) == if t.phi > MaxPhi(log) then t.phi else MaxPhi(log)
    ensures BestOf(log + [t]) == if t.phi > MaxPhi(log) then Some(Scored(t.phi, t.params)) else BestOf(log)
  {
    assert (log + [t])[..|log|] == log;
  }

  /** `zip(params, phis, ses)`, with `ses` defaulting to "none" for every
      metric. */
  function Batch(params: seq<Params>, phis: seq<real>, ses: Option<seq<Value>>): (b: seq<Told>)
    ensures |b| == Min(|params|, Min(|phis|, if ses.None? then |phis| else |ses.value|))
    ensures forall i :: 0 <= i < |b| ==>
      b[i].params == params[i] && b[i].phi == phis[i] && b[i].se == (if ses.None? then NoneSe else ses.value[i])
  {
    var ses' := if ses.None? then seq(|phis|, _ => NoneSe) else ses.value;
    seq(Min(|params|, Min(|phis|, |ses'|)), i requires 0 <= i < Min(|params|, Min(|phis|, |ses'|)) =>
      Told(params[i], phis[i], ses'[i]))
  }

  /** The measurement row `tell` stores for a triple. */
  function RowOf(columns: seq<string>, t: Told): (r: Result<seq<Value>>)
    ensures r.Success? ==> |r.value| == |columns| + 2 && r.value[|columns|] == Num(t.phi) && r.value[|columns| + 1] == t.se
    ensures r.Success? ==> Encode(columns, t.params).Success? && r.value[..|columns|] == Encode(columns, t.params).value
    ensures r.Failure? <==> Encode(columns, t.params).Failure?
  {
    var x := Encode(columns, t.params);
    if x.Failure? then Failure(x.error) else Success(x.value + [Num(t.phi), t.se])
  }

  /** `rows'` is `rows` followed by one row per triple of `more`. */
  ghost predicate Appended(columns: seq<string>, rows: seq<seq<Value>>, more: seq<Told>, rows': seq<seq<Value>>) {
    && |rows'| == |rows| + |more|
    && rows'[..|rows|] == rows
    && forall j :: 0 <= j < |more| ==> RowOf(columns, more[j]) == Success(rows'[|rows| + j])
  }

  /** Rows are determined by the triples: when the log grows by `more`,
      the old rows stay in place and the rows of `more` follow them. */
  lemma LoggedExtension(columns: seq<string>, log: seq<Told>, rows: seq<seq<Value>>,
                        more: seq<Told>, rows': seq<seq<Value>>)
    requires Logged(columns, log, rows) && Logged(columns, log + more, rows')
    ensures Appended(columns, rows, more, rows')
  {
    forall i | 0 <= i < |rows|
      ensures rows'[i] == rows[i]
    {
      assert (log + more)[i] == log[i];
    }
    forall j | 0 <= j < |more|
      ensures RowOf(columns, more[j]) == Success(rows'[|rows| + j])
    {
      assert (log + more)[|log| + j] == more[j];
    }
  }

  /** Tell's loop uses this to extend `log == old(log) + batch[..i]` by one. */
  lemma ExtendPrefix<T>(a: seq<T>, b: seq<T>, i: nat)
    requires i < |b|
    ensures a + b[..i] + [b[i]] == a + b[..i + 1]
  {
    assert b[..i + 1] == b[..i] + [b[i]];
  }

  /** Row k of `rows` is the row stored for triple k of `log`. */
  ghost predicate Logged(columns: seq<string>, log: seq<Told>, rows: seq<seq<Value>>) {
    && |log| == |rows|
    && forall i :: 0 <= i < |rows| ==> RowOf(columns, log[i]) == Success(rows[i])
  }

  /** One step of `tell`: the stored rows, the maximum and the best after
      appending a triple whose row was built. */
  lemma TellStep(columns: seq<string>, log: seq<Told>, rows: seq<seq<Value>>, t: Told, row: seq<Value>)
    requires Logged(columns, log, rows) && RowOf(columns, t) == Success(row)
    ensures Logged(columns, log + [t], rows + [row])
    ensures MaxPhi(log + [t]) == if t.phi > MaxPhi(log) then t.phi else MaxPhi(log)
    ensures BestOf(log + [t]) == if t.phi > MaxPhi(log) then Some(Scored(t.phi, t.params)) else BestOf(log)
  {
    LoggedAppend(columns, log, rows, t, row);
    AppendOne(log, t);
  }

  lemma LoggedAppend(columns: seq<string>, log: seq<Told>, rows: seq<seq<Value>>, t: Told, row: seq<Value>)
    requires Logged(columns, log, rows) && RowOf(columns, t) == Success(row)
    ensures Logged(columns, log + [t], rows + [row])
  {
    forall i | 0 <= i < |rows| + 1
      ensures RowOf(columns, (log + [t])[i]) == Success((rows + [row])[i])
    {
      if i < |rows| {
        assert (log + [t])[i] == log[i];
      }
    }
  }

  /** How many triples at the front of `batch` `tell` stores before the
      first one whose dictionary lacks a schema name. */
  function AcceptedPrefix(columns: seq<string>, batch: seq<Told>): (k: nat)
    ensures k <= |batch|
    ensures forall j :: 0 <= j < k ==> Encode(columns, batch[j].params).Success?
    ensures k < |batch| ==> Encode(columns, batch[k].params).Failure?
  {
    if batch == [] || Encode(columns, batch[0].params).Failure? then 0
    else 1 + AcceptedPrefix(columns, batch[1..])
  }

  predicate IsMetricEst(header: string) { header == MetricEst }

  /** `(row_fav["metric_est"], _mk_param(row_fav))` for the first analysis
      row: the estimate lookup comes first, then the decoding. */
  function FavoriteOf(columns: seq<string>, analysis: Frame): (r: Result<Estimate>)
    requires |analysis.rows| > 0
    ensures MetricEst !in analysis.columns ==> r == Failure(KeyLookup(MetricEst))
    ensures MetricEst in analysis.columns ==> r.Success? == DecodeRow(columns, analysis.rows[0]).Success?
    ensures MetricEst in analysis.columns && DecodeRow(columns, analysis.rows[0]).Failure? ==>
      r == Failure(DecodeRow(columns, analysis.rows[0]).error)
    ensures r.Success? ==>
      && DecodeRow(columns, analysis.rows[0]) == Success(r.value.params)
      && exists k :: 0 <= k < |analysis.columns| && analysis.columns[k] == MetricEst
           && r.value.metric == analysis.rows[0][k]
           && forall j :: 0 <= j < k ==> analysis.columns[j] != MetricEst
  {
    var k := FirstWhere(analysis.columns, IsMetricEst);
    if k == |analysis.columns| then Failure(KeyLookup(MetricEst))
    else
      var p := DecodeRow(columns, analysis.rows[0]);
      if p.Failure? then Failure(p.error)
      else Success(Estimate(analysis.rows[0][k], p.value))
  }

  class AskTell {
    const columns: seq<string>
    const url: Option<string>  // stored, but never passed on by Ask
    const numParams: nat := |columns|
    var measurements: seq<seq<Value>>
    var favorite: Option<Estimate>
    var phiBest: real
    var best: Option<Scored>
    /** Every triple told so far, in order. */
    ghost var log: seq<Told>

    ghost predicate Valid()
      reads this`measurements, this`phiBest, this`best, this`log
    {
      && Logged(columns, log, measurements)
      && phiBest == MaxPhi(log)
      && best == BestOf(log)
    }

    constructor (paramDefs: seq<string>, url: Option<string>)
      ensures Valid()
      ensures columns == paramDefs && this.url == url
      ensures measurements == [] && log == []
      ensures favorite == None && best == None && phiBest == Sentinel
    {
      columns := paramDefs;
      this.url := url;
      measurements := [];
      favorite := None;
      phiBest := Sentinel;
      best := None;
      log := [];
    }

    /** Every stored row holds one value per column, then the metric and
        its standard error, matching the header Ask sends. */
    lemma RowsMatchHeader()
      requires Valid()
      ensures forall i :: 0 <= i < |measurements| ==>
        && |measurements[i]| == |columns| + 2
        && Encode(columns, log[i].params).Success?
        && measurements[i][..|columns|] == Encode(columns, log[i].params).value
        && measurements[i][|columns|] == Num(log[i].phi)
        && measurements[i][|columns| + 1] == log[i].se
    {
      forall i | 0 <= i < |measurements|
        ensures measurements[i][..|columns|] == Encode(columns, log[i].params).value
      {
        assert RowOf(columns, log[i]) == Success(measurements[i]);
      }
    }

    /** The table Ask posts: the schema plus "metric:mean" and "metric:se"
        as header, the stored rows as data. */
    function MeasurementFrame(): (f: Frame)
      reads this
      requires Valid()
      ensures f.columns == columns + ["metric:mean", "metric:se"]
      ensures f.rows == measurements
    {
      RowsMatchHeader();
      Grid(columns + ["metric:mean", "metric:se"], measurements)
    }

    function Favorite(): Option<Estimate>
      reads this
    {
      favorite
    }

    /** `best()`: None until a metric above the sentinel is told, then the
        first triple that reached the largest metric told. */
    function Best(): (r: Option<Scored>)
      reads this
      requires Valid()
      ensures r.None? <==> forall i :: 0 <= i < |log| ==> log[i].phi <= Sentinel
      ensures r.Some? ==>
        && r.value.phi == phiBest
        && (forall i :: 0 <= i < |log| ==> log[i].phi <= r.value.phi)
        && exists i :: 0 <= i < |log| && r.value == Scored(log[i].phi, log[i].params)
             && forall j :: 0 <= j < i ==> log[j].phi < r.value.phi
    {
      MaxPhiBounds(log);
      BestOfSpec(log);
      best
    }

    /** `_mk_param(row)`. */
    method MkParam(row: seq<Value>) returns (r: Result<Params>)
      ensures r == DecodeRow(columns, row)
    {
      ghost var cells := Cells(columns, row);
      var p: Params := map[];
      var n := Min(numParams, |row|);
      var i := 0;
      while i < n
        invariant 0 <= i <= n
        invariant Collect(cells[..i]) == Success(p)
      {
        assert cells[..i + 1][..i] == cells[..i];
        var cell := DecodeCell(columns[i], row[i]);
        if cell.Failure? {
          CollectStops(cells, i);
          return Failure(cell.error);
        }
        p := p[cell.value.0 := cell.value.1];
        i := i + 1;
      }
      assert cells[..i] == cells;
      return Success(p);
    }

    /** `_clean_design(df_design)`. */
    method CleanDesign(design: Frame) returns (r: Result<seq<Params>>)
      ensures r == DecodeDesign(columns, design.rows)
    {
      var params: seq<Params> := [];
      var i := 0;
      while i < |design.rows|
        invariant 0 <= i <= |design.rows|
        invariant DecodeDesign(columns, design.rows[..i]) == Success(params)
      {
        var p := MkParam(design.rows[i]);
        DecodeDesignStep(columns, design.rows, i, params);
        if p.Failure? {
          return Failure(p.error);
        }
        params := params + [p.value];
        i := i + 1;
      }
      assert design.rows[..i] == design.rows;
      return Success(params);
    }

    /** `ask(number_of_arms)`, given the service's answers: `statuses` for
        the attempts and `body` and `readJson` for the 200 answer. */
    method Ask(numberOfArms: int, statuses: seq<int>, body: map<string, string>,
               readJson: string -> Option<Frame>) returns (posts: seq<Post>, r: Result<seq<Params>>)
      requires Valid()
      requires DefaultRetries <= |statuses|
      modifies this`favorite
      ensures Valid()
      ensures measurements == old(measurements) && log == old(log) && best == old(best)
      // The session's own URL is not passed on: every post goes to the default one.
      ensures |posts| == Attempts(DefaultRetries, statuses)
      ensures forall p :: p in posts ==> p == Post(DefaultUrl, Envelope(numberOfArms, MeasurementFrame()))
      ensures var resp := RequestOutcome(DefaultRetries, statuses, body, readJson);
        if resp.Failure? then
          r == Failure(resp.error) && favorite == old(favorite)
        else if |resp.value.analysis.rows| == 0 then
          favorite == old(favorite) && r == DecodeDesign(columns, resp.value.design.rows)
        else
          var fav := FavoriteOf(columns, resp.value.analysis);
          if fav.Failure? then r == Failure(fav.error) && favorite == old(favorite)
          else favorite == Some(fav.value) && r == DecodeDesign(columns, resp.value.design.rows)
    {
      var sleeps, resp;
      posts, sleeps, resp := Request(MeasurementFrame(), numberOfArms, None, DefaultRetries,
                                         statuses, body, readJson);
      if resp.Failure? {
        return posts, Failure(resp.error);
      }
      var analysis := resp.value.analysis;
      if |analysis.rows| > 0 {
        var rowFav := analysis.rows[0];
        var k := FirstWhere(analysis.columns, IsMetricEst);
        if k == |analysis.columns| {
          return posts, Failure(KeyLookup(MetricEst));
        }
        var p := MkParam(rowFav);
        if p.Failure? {
          return posts, Failure(p.error);
        }
        favorite := Some(Estimate(rowFav[k], p.value));
      }
      r := CleanDesign(resp.value.design);
    }

    /** One pass of `tell`'s loop: builds the row of one triple, appends it
        and moves the running best if the metric is strictly larger; a
        dictionary that lacks a schema name changes nothing. */
    method Record(p: Params, phi: real, se: Value) returns (err: Option<Error>)
      requires Valid()
      modifies this
      ensures Valid() && favorite == old(favorite)
      ensures err.None? <==> Encode(columns, p).Success?
      ensures err.Some? ==> err == Some(Encode(columns, p).error) && log == old(log)
      ensures err.None? ==>
        && log == old(log) + [Told(p, phi, se)]
        && measurements == old(measurements) + [Encode(columns, p).value + [Num(phi), se]]
        && phiBest == (if phi > old(phiBest) then phi else old(phiBest))
        && best == (if phi > old(phiBest) then Some(Scored(phi, p)) else old(best))
      ensures err.Some? ==> measurements == old(measurements) && phiBest == old(phiBest) && best == old(best)
    {
      var x := Encode(columns, p);
      if x.Failure? {
        return Some(x.error);
      }
      var row := x.value + [Num(phi), se];
      TellStep(columns, log, measurements, Told(p, phi, se), row);
      measurements := measurements + [row];
      log := log + [Told(p, phi, se)];
      if phi > phiBest {
        phiBest := phi;
        best := Some(Scored(phi, p));
      }
      return None;
    }

    /** `tell(params, phis, ses)`: appends one row per triple of the zip, in
        order, and updates the running best; on the first dictionary that
        lacks a schema name it stops with a key-lookup error, keeping what
        it appended before. */
    method Tell(params: seq<Params>, phis: seq<real>, ses: Option<seq<Value>>) returns (err: Option<Error>)
      requires Valid()
      modifies this
      ensures Valid() && favorite == old(favorite)
      ensures var batch := Batch(params, phis, ses);
        var k := AcceptedPrefix(columns, batch);
        && log == old(log) + batch[..k]
        && Appended(columns, old(measurements), batch[..k], measurements)
        && err == (if k < |batch| then Some(Encode(columns, batch[k].params).error) else None)
    {
      ghost var batch := Batch(params, phis, ses);
      ghost var k := AcceptedPrefix(columns, batch);
      var n := Min(|params|, Min(|phis|, if ses.None? then |phis| else |ses.value|));
      var i := 0;
      while i < n
        invariant 0 <= i <= n == |batch|
        invariant Valid() && favorite == old(favorite)
        invariant log == old(log) + batch[..i]
        invariant i <= k
      {
        var se := if ses.None? then NoneSe else ses.value[i];
        assert batch[i] == Told(params[i], phis[i], se);
        err := Record(params[i], phis[i], se);
        if err.Some? {
          assert k == i;
          LoggedExtension(columns, old(log), old(measurements), batch[..i], measurements);
          return;
        }
        assert i < k;
        ExtendPrefix(old(log), batch, i);
        i := i + 1;
      }
      assert batch[..i] == batch;
      LoggedExtension(columns, old(log), old(measurements), batch, measurements);
      return None;
    }
  }

  /** One triple whose dictionary holds every schema name is one accepted
      triple. */
  lemma TellOne(columns: seq<string>, p: Params, phi: real)
    requires Encode(columns, p).Success?
    ensures Batch([p], [phi], None) == [Told(p, phi, NoneSe)]
    ensures AcceptedPrefix(columns, [Told(p, phi, NoneSe)]) == 1
  {
    assert [Told(p, phi, NoneSe)][1..] == [];
  }

  /** Of two metrics above the sentinel, the larger second one is the best. */
  lemma LargerSecondWins(t1: Told, t2: Told)
    requires Sentinel < t1.phi < t2.phi
    ensures BestOf([t1, t2]) == Some(Scored(t2.phi, t2.params))
  {
    assert [t1, t2][..1] == [t1];
    assert [t1][..0] == [];
  }

  /** The worked example's schema and dictionaries. */
  const ExampleColumns: seq<string> := ["x:[0,1]", "y:{0,1,2}"]
  const ExampleFirst: Params := map["x" := Num(0.5), "y" := Int(1)]
  const ExampleSecond: Params := map["x" := Num(0.9), "y" := Int(0)]

  lemma ExampleEncodes()
    ensures Encode(ExampleColumns, ExampleFirst).Success?
    ensures Encode(ExampleColumns, ExampleSecond).Success?
  {
    assert ColumnName(ExampleColumns[0]) == "x" && ColumnName(ExampleColumns[1]) == "y";
    EncodeSpec(ExampleColumns, ExampleFirst);
    EncodeSpec(ExampleColumns, ExampleSecond);
  }

  /** The worked example: two triples told one by one; the larger metric
      wins. */
  method TwoTells() {
    var session := new AskTell(ExampleColumns, None);
    ExampleEncodes();
    TellOne(ExampleColumns, ExampleFirst, 10.0);
    TellOne(ExampleColumns, ExampleSecond, 20.0);
    var e1 := session.Tell([ExampleFirst], [10.0], None);
    var e2 := session.Tell([ExampleSecond], [20.0], None);
    assert session.log == [Told(ExampleFirst, 10.0, NoneSe)] + [Told(ExampleSecond, 20.0, NoneSe)];
    LargerSecondWins(Told(ExampleFirst, 10.0, NoneSe), Told(ExampleSecond, 20.0, NoneSe));
    assert e1 == None && e2 == None;
    assert session.Best() == Some(Scored(20.0, ExampleSecond));
  }
}
