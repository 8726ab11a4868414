/** Failure-compatible result types shared by every module of the model. */
module Wrappers {

  /** An optional value: Rust's `Option<T>`. */
  datatype Option<+T> = None | Some(value: T) {

    predicate IsFailure() {
      None?
    }

    function PropagateFailure<U>(): Option<U>
      requires None?
    {
      None
    }

    function Extract(): T
      requires Some?
    {
      value
    }

    /** The contained value, or `default` for `None` (Rust's `unwrap_or`). */
    function GetOr(default: T): T {
      match this
      case Some(v) => v
      case None => default
    }
  }

  /** A value or an error: Rust's `Result<T, E>`. */
  datatype Result<+T, +E> = Ok(value: T) | Err(error: E) {

    predicate IsFailure() {
      Err?
    }

    function PropagateFailure<U>(): Result<U, E>
      requires Err?
    {
      Err(error)
    }

    function Extract(): T
      requires Ok?
    {
      value
    }
  }

  /** The present values, in order: Rust's `filter_map` after the map. */
  function Somes<T>(opts: seq<Option<T>>): (r: seq<T>)
    ensures |r| <= |opts|
  {
    if |opts| == 0 then []
    else if opts[0].Some? then [opts[0].value] + Somes(opts[1..])
    else Somes(opts[1..])
  }

  /** A value is kept exactly when some entry holds it. */
  lemma {:induction false} SomesMembers<T>(opts: seq<Option<T>>, v: T)
    ensures v in Somes(opts) <==> exists i :: 0 <= i < |opts| && opts[i] == Some(v)
    decreases |opts|
  {
    if |opts| > 0 {
      SomesMembers(opts[1..], v);
      if exists i :: 0 <= i < |opts| && opts[i] == Some(v) {
        var i :| 0 <= i < |opts| && opts[i] == Some(v);
        if i > 0 {
          assert opts[1..][i - 1] == opts[i];
        }
      }
      if exists i :: 0 <= i < |opts[1..]| && opts[1..][i] == Some(v) {
        var i :| 0 <= i < |opts[1..]| && opts[1..][i] == Some(v);
        assert opts[i + 1] == opts[1..][i];
      }
    }
  }

  /** When every entry is present nothing is dropped. */
  lemma {:induction false} SomesAll<T>(opts: seq<Option<T>>, xs: seq<T>)
    requires |opts| == |xs| && forall i :: 0 <= i < |xs| ==> opts[i] == Some(xs[i])
    ensures Somes(opts) == xs
    decreases |xs|
  {
    if |xs| > 0 {
      SomesAll(opts[1..], xs[1..]);
    }
  }

  /** Rust's `collect::<Result<Vec<_>, _>>()` over `xs.map(f)`: every item's
      value when all succeed, else the error of the first item that fails. */
  function Collect<A, B, E>(xs: seq<A>, f: A -> Result<B, E>): (r: Result<seq<B>, E>)
    ensures r.Ok? ==> |r.value| == |xs| && forall i :: 0 <= i < |xs| ==> f(xs[i]) == Ok(r.value[i])
    ensures r.Err? ==> exists i :: 0 <= i < |xs| && f(xs[i]) == Err(r.error) && forall j :: 0 <= j < i ==> f(xs[j]).Ok?
  {
    if |xs| == 0 then Ok([])
    else match f(xs[0])
      case Err(e) => Err(e)
      case Ok(y) =>
        match Collect(xs[1..], f)
        case Err(e) =>
          ghost var i :| 0 <= i < |xs[1..]| && f(xs[1..][i]) == Err(e) && forall j :: 0 <= j < i ==> f(xs[1..][j]).Ok?;
          assert f(xs[i + 1]) == Err(e);
          assert forall j :: 0 <= j < i + 1 ==> f(xs[j]).Ok? by {
            forall j | 0 <= j < i + 1 ensures f(xs[j]).Ok? {
              if j > 0 { assert xs[j] == xs[1..][j - 1]; }
            }
          }
          Err(e)
        case Ok(ys) => Ok([y] + ys)
  }

  /** All items succeed exactly when the collection does. */
  lemma CollectOk<A, B, E>(xs: seq<A>, f: A -> Result<B, E>)
    ensures Collect(xs, f).Ok? <==> forall i :: 0 <= i < |xs| ==> f(xs[i]).Ok?
  {
    if Collect(xs, f).Err? {
      var i :| 0 <= i < |xs| && f(xs[i]) == Err(Collect(xs, f).error) && forall j :: 0 <= j < i ==> f(xs[j]).Ok?;
      assert !f(xs[i]).Ok?;
    }
  }

  /** A loop that stops at the first failing item: it succeeds exactly when
      every item does, and otherwise fails with the first item's error. */
  function TryEach<A, E>(xs: seq<A>, f: A -> Result<(), E>): (r: Result<(), E>)
    ensures r.Ok? <==> forall i :: 0 <= i < |xs| ==> f(xs[i]).Ok?
    ensures r.Err? ==> exists i :: 0 <= i < |xs| && f(xs[i]) == Err(r.error) && forall j :: 0 <= j < i ==> f(xs[j]).Ok?
  {
    CollectOk(xs, f);
    match Collect(xs, f)
    case Ok(_) => Ok(())
    case Err(e) => Err(e)
  }
}
