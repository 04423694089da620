/** Values, tables and errors shared by the transport exchange and the
    ask/tell session. */
module Common {

  datatype Option<+T> = None | Some(value: T)

  /** The outcome of an operation that raises an exception in the client. */
  datatype Result<+R> = Success(value: R) | Failure(error: Error)

  /** A cell of a measurement, analysis or design table, or a parameter value.
      Num is a Python float, Int a Python int, Text anything else that is
      carried along unchanged (the "none" standard-error sentinel among them). */
  datatype Value = Num(r: real) | Int(i: int) | Text(s: string)

  /** The standard error written when a caller tells no standard errors. */
  const NoneSe: Value := Text("none")

  /** A parameter dictionary: parameter name to value. */
  type Params = map<string, Value>

  /** A table with named columns; a Frame is one whose rows all have one cell
      per column, as every pandas DataFrame has. */
  datatype Grid = Grid(columns: seq<string>, rows: seq<seq<Value>>) {
    predicate Rectangular() {
      forall i :: 0 <= i < |rows| ==> |rows[i]| == |columns|
    }
  }

  type Frame = g: Grid | g.Rectangular() witness Grid([], [])

  /** Everything the core can raise. */
  datatype Error =
    | NoAttempt                                // num_retries <= 0: `res` is never bound
    | RequestFailed(code: int)                 // every attempt answered with a non-200 status
    | InvalidResponse(body: map<string, string>) // a 200 body without "message"
    | ServerMessage(text: string)              // a 200 body whose message is not "Ok"
    | KeyLookup(key: string)                   // a dictionary or column lookup of a missing key
    | UnreadableTable(key: string)             // the field under `key` is not a JSON table
    | BadSpec(spec: string)                    // a column spec that does not split into two parts
    | EmptyDomain(spec: string)                // a column spec with an empty domain part
    | NotNumeric(v: Value)                     // float() or int() of a non-numeric value

  function Min(a: int, b: int): int { if a <= b then a else b }

  /** The index of the first element of `s` that satisfies `p`, or |s| when
      none does. */
  function FirstWhere<T>(s: seq<T>, p: T -> bool): (k: nat)
    ensures k <= |s|
    ensures forall j :: 0 <= j < k ==> !p(s[j])
    ensures k < |s| ==> p(s[k])
  {
    if s == [] then 0
    else
      var k := FirstWhere(s[..|s| - 1], p);
      if k < |s| - 1 then k
      else if p(s[|s| - 1]) then |s| - 1
      else |s|
  }

  /** The first index is determined by the two properties FirstWhere promises.
      `Request` uses it to tie the index where its loop stops to FirstWhere. */
  lemma FirstWhereUnique<T>(s: seq<T>, p: T -> bool, k: nat)
    requires k <= |s|
    requires forall j :: 0 <= j < k ==> !p(s[j])
    requires k < |s| ==> p(s[k])
    ensures FirstWhere(s, p) == k
  {
  }

  /** Applies `f` to every element in order and collects the results, or
      stops at the first failure. */
  function Traverse<A, B>(xs: seq<A>, f: A -> Result<B>): (r: Result<seq<B>>)
    ensures r.Success? <==> forall i :: 0 <= i < |xs| ==> f(xs[i]).Success?
    ensures r.Success? ==> |r.value| == |xs| && forall i :: 0 <= i < |xs| ==> f(xs[i]) == Success(r.value[i])
  {
    if xs == [] then Success([])
    else
      var init := Traverse(xs[..|xs| - 1], f);
      if init.Failure? then init
      else
        var last := f(xs[|xs| - 1]);
        if last.Failure? then Failure(last.error)
        else Success(init.value + [last.value])
  }

  /** A failed Traverse reports the error of the first element that fails. */
  lemma {:induction false} TraverseFailure<A, B>(xs: seq<A>, f: A -> Result<B>)
    ensures Traverse(xs, f).Failure? ==>
      exists k :: 0 <= k < |xs| && f(xs[k]) == Failure(Traverse(xs, f).error)
        && forall j :: 0 <= j < k ==> f(xs[j]).Success?
  {
    if Traverse(xs, f).Failure? {
      var init := xs[..|xs| - 1];
      assert forall j :: 0 <= j < |init| ==> xs[j] == init[j];
      if Traverse(init, f).Failure? {
        TraverseFailure(init, f);
        var k :| 0 <= k < |init| && f(init[k]) == Failure(Traverse(init, f).error)
                  && forall j :: 0 <= j < k ==> f(init[j]).Success?;
        assert f(xs[k]) == Failure(Traverse(xs, f).error);
      } else {
        assert f(xs[|xs| - 1]) == Failure(Traverse(xs, f).error);
      }
    }
  }

  /** Once an element fails, Traverse fails with its error, whatever follows. */
  lemma {:induction false} TraverseStops<A, B>(xs: seq<A>, f: A -> Result<B>, i: nat)
    requires i < |xs|
    requires Traverse(xs[..i], f).Success? && f(xs[i]).Failure?
    ensures Traverse(xs, f) == Failure(f(xs[i]).error)
  {
    if i < |xs| - 1 {
      TraverseStops(xs[..|xs| - 1], f, i);
      assert xs[..|xs| - 1][..i] == xs[..i];
    }
  }

  /** Builds a dictionary from key/value results in order, a later key
      overwriting an earlier one, or fails with the first failure. */
  function Collect<K, V>(cells: seq<Result<(K, V)>>): (r: Result<map<K, V>>)
    ensures r.Success? <==> forall i :: 0 <= i < |cells| ==> cells[i].Success?
  {
    if cells == [] then Success(map[])
    else
      var p := Collect(cells[..|cells| - 1]);
      if p.Failure? then p
      else
        var c := cells[|cells| - 1];
        if c.Failure? then Failure(c.error)
        else Success(p.value[c.value.0 := c.value.1])
  }

  /** Once a cell fails, Collect fails with its error, whatever follows. */
  lemma {:induction false} CollectStops<K, V>(cells: seq<Result<(K, V)>>, i: nat)
    requires i < |cells|
    requires Collect(cells[..i]).Success? && cells[i].Failure?
    ensures Collect(cells) == Failure(cells[i].error)
  {
    if i < |cells| - 1 {
      assert cells[..|cells| - 1][..i] == cells[..i];
      CollectStops(cells[..|cells| - 1], i);
    } else {
      assert cells[..|cells| - 1] == cells[..i];
    }
  }

  /** A failed Collect reports the error of the first cell that fails. */
  lemma {:induction false} CollectFailure<K, V>(cells: seq<Result<(K, V)>>)
    ensures Collect(cells).Failure? ==>
      exists k :: 0 <= k < |cells| && cells[k] == Failure(Collect(cells).error)
        && forall j :: 0 <= j < k ==> cells[j].Success?
  {
    if Collect(cells).Failure? {
      var init := cells[..|cells| - 1];
      assert forall j :: 0 <= j < |init| ==> cells[j] == init[j];
      if Collect(init).Failure? {
        CollectFailure(init);
        var k :| 0 <= k < |init| && init[k] == Failure(Collect(init).error)
                  && forall j :: 0 <= j < k ==> init[j].Success?;
        assert cells[k] == Failure(Collect(cells).error);
      } else {
        assert cells[|cells| - 1] == Failure(Collect(cells).error);
      }
    }
  }

  /** No cell after position `i` carries the key of cell `i`. */
  ghost predicate LastWithKey<K, V>(cells: seq<Result<(K, V)>>, i: nat)
    requires i < |cells|
    requires forall j :: 0 <= j < |cells| ==> cells[j].Success?
  {
    forall j :: i < j < |cells| ==> cells[j].value.0 != cells[i].value.0
  }

  /** A successful Collect holds one key per cell, and under each key the
      value of the last cell that carries it. */
  lemma {:induction false} CollectContents<K, V>(cells: seq<Result<(K, V)>>)
    requires Collect(cells).Success?
    ensures Collect(cells).value.Keys == set i | 0 <= i < |cells| :: cells[i].value.0
    ensures forall i :: 0 <= i < |cells| && LastWithKey(cells, i) ==>
      Collect(cells).value[cells[i].value.0] == cells[i].value.1
  {
    if cells != [] {
      var n := |cells|;
      var init := cells[..n - 1];
      CollectContents(init);
      var p := Collect(init).value;
      var c := cells[n - 1].value;
      var q := Collect(cells).value;
      assert q == p[c.0 := c.1];
      assert (set i | 0 <= i < n :: cells[i].value.0)
          == (set i | 0 <= i < n - 1 :: init[i].value.0) + {c.0};
      forall i | 0 <= i < n && LastWithKey(cells, i)
        ensures q[cells[i].value.0] == cells[i].value.1
      {
        if i < n - 1 {
          assert LastWithKey(init, i);
          assert c.0 != cells[i].value.0;
        }
      }
    }
  }

  /** When every cell carries a key with the value a map `m` holds under it,
      Collect rebuilds `m` on exactly those keys. */
  lemma {:induction false} CollectLookups<K, V>(cells: seq<Result<(K, V)>>, keys: seq<K>, m: map<K, V>)
    requires |cells| == |keys|
    requires forall i :: 0 <= i < |keys| ==> keys[i] in m && cells[i] == Success((keys[i], m[keys[i]]))
    ensures Collect(cells).Success?
    ensures Collect(cells).value.Keys == set i | 0 <= i < |keys| :: keys[i]
    ensures forall k :: k in Collect(cells).value ==> k in m && Collect(cells).value[k] == m[k]
  {
    if cells != [] {
      var n := |cells|;
      var init := keys[..n - 1];
      CollectLookups(cells[..n - 1], init, m);
      assert (set i | 0 <= i < n :: keys[i]) == (set i | 0 <= i < n - 1 :: init[i]) + {keys[n - 1]};
    }
  }
}
