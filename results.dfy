/** Failure handling shared by every decoder.

    Every `?` in the decoders propagates the first failure.  A failure is
    either an I/O error returned by the file (a read past the end, a seek
    before the start of the file) or one of the two panics the decoders can
    raise: a `u32` addition that overflows, and `String::from_utf8(..).unwrap()`
    on bytes that are not UTF-8.  All of them end the decode run. */
module Results {

  datatype Error =
    | UnexpectedEof   // read_exact could not fill its buffer
    | InvalidSeek     // a seek to a position before byte 0
    | Overflow        // `raw + 0x10` does not fit in a u32
    | InvalidUtf8     // the string pool bytes are not UTF-8

  /** Usable with `:-`, which propagates an Err the way Rust's `?` does. */
  datatype Result<+T> = Ok(value: T) | Err(error: Error) {
    predicate IsFailure() {
      Err?
    }

    function PropagateFailure<U>(): Result<U>
      requires Err?
    {
      Err(error)
    }

    function Extract(): T
      requires Ok?
    {
      value
    }
  }

  /** Runs `step(0)`, `step(1)`, ..., `step(n - 1)` in order, stopping at the
      first failure: the shape of every `for _ in 0..n { ...? }` loop of the
      decoders.  On success it returns the n results in order; on failure the
      error of the first step that failed. */
  function Collect<T>(step: nat --> Result<T>, n: nat): Result<seq<T>>
    requires forall i :: 0 <= i < n ==> step.requires(i)
  {
    if n == 0 then Ok([])
    else
      match Collect(step, n - 1)
      case Err(e) => Err(e)
      case Ok(prefix) =>
        match step(n - 1)
        case Err(e) => Err(e)
        case Ok(x) => Ok(prefix + [x])
  }

  /** Collect succeeds exactly when every step does, and then returns the n
      results in order; otherwise it fails with the error of the first step
      that fails. */
  lemma {:induction false} CollectSpec<T>(step: nat --> Result<T>, n: nat)
    requires forall i :: 0 <= i < n ==> step.requires(i)
    ensures Collect(step, n).Ok? <==> (forall i :: 0 <= i < n ==> step(i).Ok?)
    ensures Collect(step, n).Ok? ==>
      |Collect(step, n).value| == n && forall i :: 0 <= i < n ==> step(i) == Ok(Collect(step, n).value[i])
    ensures Collect(step, n).Err? ==>
      exists i :: 0 <= i < n && step(i) == Err(Collect(step, n).error) && forall j :: 0 <= j < i ==> step(j).Ok?
  {
    if n > 0 {
      CollectSpec(step, n - 1);
      if Collect(step, n - 1).Err? {
        var i :| 0 <= i < n - 1 && step(i) == Err(Collect(step, n - 1).error) && forall j :: 0 <= j < i ==> step(j).Ok?;
        assert Collect(step, n) == Collect(step, n - 1);
      } else if step(n - 1).Err? {
        assert Collect(step, n) == Err(step(n - 1).error);
      } else {
        var prefix := Collect(step, n - 1).value;
        assert Collect(step, n) == Ok(prefix + [step(n - 1).value]);
      }
    }
  }

  /** One more successful step extends the results by one. */
  lemma CollectSnoc<T>(step: nat --> Result<T>, k: nat, xs: seq<T>, x: T)
    requires forall i :: 0 <= i <= k ==> step.requires(i)
    requires Collect(step, k) == Ok(xs)
    requires step(k) == Ok(x)
    ensures Collect(step, k + 1) == Ok(xs + [x])
  {
  }

  /** Once the first k steps have succeeded and step k fails, every longer run
      fails with step k's error: the loop may stop there. */
  lemma {:induction false} CollectStopsAt<T>(step: nat --> Result<T>, k: nat, n: nat, e: Error)
    requires k < n
    requires forall i :: 0 <= i < n ==> step.requires(i)
    requires Collect(step, k).Ok?
    requires step(k) == Err(e)
    ensures Collect(step, n) == Err(e)
  {
    if n > k + 1 {
      CollectStopsAt(step, k, n - 1, e);
    }
  }
}
