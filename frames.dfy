/** A materialised Polars frame: a height and named columns of that height.
    Also the parameter bag of a signal and the errors a query can raise. */
module Frames {
  import opened Kernels

  /** A numeric column, or a boolean one such as `is_overextended`. */
  datatype Series = Numeric(cells: Column) | Boolean(truths: seq<Truth>)
  {
    function Len(): nat
    {
      if Numeric? then |cells| else |truths|
    }

    /** The series as numbers: a boolean column casts to 1.0 / 0.0. */
    function AsNumbers(): (r: Column)
      ensures |r| == Len()
    {
      if Numeric? then cells else Cast(truths)
    }
  }

  datatype Frame = Frame(height: nat, cols: map<string, Series>)
  {
    ghost predicate Valid()
    {
      forall k :: k in cols ==> cols[k].Len() == height
    }

    /** `with_columns(s.alias(name))`: adds the column, or replaces it. */
    function With(name: string, s: Series): (r: Frame)
      ensures r.height == height && r.cols == cols[name := s]
      ensures Valid() && s.Len() == height ==> r.Valid()
    {
      Frame(height, cols[name := s])
    }

    /** `drop(names)`. */
    function Drop(names: set<string>): (r: Frame)
      ensures r.height == height && r.cols == cols - names
      ensures Valid() ==> r.Valid()
    {
      Frame(height, cols - names)
    }
  }

  datatype Error =
    | MissingColumn(name: string)   // ColumnNotFoundError when the query is collected
    | BadParam(key: string)         // a window, span or lag of the wrong kind or out of range
    | BadArgument                   // a Python-level argument Polars or NumPy rejects

  datatype Result<T> = Ok(value: T) | Err(error: Error)
  {
    predicate IsFailure() { Err? }

    function PropagateFailure<U>(): Result<U>
      requires Err?
    {
      Err(error)
    }

    function Extract(): T
      requires Ok?
    {
      value
    }
  }

  /** `pl.col(name)` read as numbers. */
  function Col(df: Frame, name: string): (r: Result<Column>)
    requires df.Valid()
    ensures r.Ok? <==> name in df.cols
    ensures r.Ok? ==> |r.value| == df.height
  {
    if name in df.cols then Ok(df.cols[name].AsNumbers()) else Err(MissingColumn(name))
  }

  // ---------------------------------------------------------------------------
  // Parameters
  // ---------------------------------------------------------------------------

  datatype Param = IntParam(i: int) | RealParam(r: real) | TextParam(s: string)

  type Params = map<string, Param>

  /** `params.get(key, default)`. */
  function Get(p: Params, key: string, default: Param): (r: Param)
    ensures key !in p ==> r == default
  {
    if key in p then p[key] else default
  }

  /** A window size or span: an integer of at least 1, as Polars demands. */
  function Size(p: Params, key: string, default: int): (r: Result<nat>)
    ensures r.Ok? <==> Get(p, key, IntParam(default)).IntParam? && Get(p, key, IntParam(default)).i >= 1
    ensures r.Ok? ==> r.value == Get(p, key, IntParam(default)).i
  {
    match Get(p, key, IntParam(default))
    case IntParam(i) => if i >= 1 then Ok(i) else Err(BadParam(key))
    case _ => Err(BadParam(key))
  }

  /** A lag or shift: any integer. */
  function Lag(p: Params, key: string, default: int): (r: Result<int>)
    ensures r.Ok? <==> Get(p, key, IntParam(default)).IntParam?
    ensures r.Ok? ==> r.value == Get(p, key, IntParam(default)).i
  {
    match Get(p, key, IntParam(default))
    case IntParam(i) => Ok(i)
    case _ => Err(BadParam(key))
  }

  /** A numeric level: an integer or a float. */
  function Number(p: Params, key: string, default: real): (r: Result<real>)
    ensures r.Ok? <==> !Get(p, key, RealParam(default)).TextParam?
    ensures key !in p ==> r == Ok(default)
  {
    match Get(p, key, RealParam(default))
    case IntParam(i) => Ok(i as real)
    case RealParam(x) => Ok(x)
    case TextParam(_) => Err(BadParam(key))
  }
}
