/** A loop over a list that stops at the first error raised: the values
    gathered in order, or that error. */
module Folds {
  import opened Wrappers

  /** The values of `rs` in order, or the first error among them. */
  function Collect<T, E>(rs: seq<Result<T, E>>): Result<seq<T>, E>
  {
    if rs == [] then Success([])
    else
      var init :- Collect(rs[..|rs| - 1]);
      var last :- rs[|rs| - 1];
      Success(init + [last])
  }

  /** The values of `rs` concatenated in order, or the first error among
      them. */
  function ConcatAll<T, E>(rs: seq<Result<seq<T>, E>>): Result<seq<T>, E>
  {
    if rs == [] then Success([])
    else
      var init :- ConcatAll(rs[..|rs| - 1]);
      var last :- rs[|rs| - 1];
      Success(init + last)
  }

  /** A successful collection holds every value, in order. */
  lemma {:induction false} CollectValues<T, E>(rs: seq<Result<T, E>>)
    ensures Collect(rs).Success? ==>
      && |Collect(rs).value| == |rs|
      && forall i | 0 <= i < |rs| :: rs[i].Success? && Collect(rs).value[i] == rs[i].value
    decreases |rs|
  {
    if rs != [] {
      var init := rs[..|rs| - 1];
      CollectValues(init);
      assert forall i | 0 <= i < |init| :: init[i] == rs[i];
    }
  }

  /** A failed collection reports the first error. */
  lemma {:induction false} CollectFirstError<T, E>(rs: seq<Result<T, E>>)
    ensures Collect(rs).Failure? ==>
      exists i | 0 <= i < |rs| ::
        && rs[i].Failure? && Collect(rs).error == rs[i].error
        && forall j | 0 <= j < i :: rs[j].Success?
    decreases |rs|
  {
    if rs != [] {
      var init := rs[..|rs| - 1];
      CollectFirstError(init);
      CollectValues(init);
      assert forall i | 0 <= i < |init| :: init[i] == rs[i];
    }
  }

  /** The collection fails exactly when some element does. */
  lemma CollectFails<T, E>(rs: seq<Result<T, E>>)
    ensures Collect(rs).Failure? <==> exists i | 0 <= i < |rs| :: rs[i].Failure?
  {
    CollectValues(rs);
    CollectFirstError(rs);
  }

  /** Once a prefix has failed, the rest changes nothing. */
  lemma {:induction false} CollectFailed<T, E>(rs: seq<Result<T, E>>, k: nat)
    requires k <= |rs| && Collect(rs[..k]).Failure?
    ensures Collect(rs) == Collect(rs[..k])
    decreases |rs|
  {
    if k < |rs| {
      var init := rs[..|rs| - 1];
      assert init[..k] == rs[..k];
      CollectFailed(init, k);
    } else {
      assert rs[..k] == rs;
    }
  }

  /** One step of the loop. */
  lemma CollectStep<T, E>(rs: seq<Result<T, E>>, i: nat)
    requires i < |rs| && Collect(rs[..i]).Success?
    ensures Collect(rs[..i + 1])
            == if rs[i].Failure? then Failure(rs[i].error) else Success(Collect(rs[..i]).value + [rs[i].value])
  {
    assert rs[..i + 1][..i] == rs[..i];
  }

  /** A successful concatenation saw every element succeed. */
  lemma {:induction false} ConcatSucceeded<T, E>(rs: seq<Result<seq<T>, E>>)
    ensures ConcatAll(rs).Success? ==> forall i | 0 <= i < |rs| :: rs[i].Success?
    decreases |rs|
  {
    if rs != [] {
      var init := rs[..|rs| - 1];
      ConcatSucceeded(init);
      assert forall i | 0 <= i < |init| :: init[i] == rs[i];
    }
  }

  /** A successful concatenation holds exactly the values of the
      elements. */
  lemma {:induction false} ConcatMembers<T, E>(rs: seq<Result<seq<T>, E>>, m: T)
    requires ConcatAll(rs).Success?
    ensures forall i | 0 <= i < |rs| :: rs[i].Success?
    ensures m in ConcatAll(rs).value <==> exists i | 0 <= i < |rs| :: m in rs[i].value
    decreases |rs|
  {
    ConcatSucceeded(rs);
    if rs != [] {
      var init := rs[..|rs| - 1];
      ConcatMembers(init, m);
      assert forall i | 0 <= i < |init| :: init[i] == rs[i];
      if m in rs[|rs| - 1].value {
        assert 0 <= |rs| - 1 < |rs|;
      }
      if i :| 0 <= i < |rs| && m in rs[i].value {
        if i < |init| {
          assert m in init[i].value;
        }
      }
    }
  }

  /** A failed concatenation reports the first error. */
  lemma {:induction false} ConcatFirstError<T, E>(rs: seq<Result<seq<T>, E>>)
    ensures ConcatAll(rs).Failure? ==>
      exists i | 0 <= i < |rs| ::
        && rs[i].Failure? && ConcatAll(rs).error == rs[i].error
        && forall j | 0 <= j < i :: rs[j].Success?
    decreases |rs|
  {
    if rs != [] {
      var init := rs[..|rs| - 1];
      ConcatFirstError(init);
      ConcatSucceeded(init);
      assert forall i | 0 <= i < |init| :: init[i] == rs[i];
    }
  }

  /** The concatenation fails exactly when some element does. */
  lemma ConcatFails<T, E>(rs: seq<Result<seq<T>, E>>)
    ensures ConcatAll(rs).Failure? <==> exists i | 0 <= i < |rs| :: rs[i].Failure?
  {
    ConcatFirstError(rs);
    ConcatSucceeded(rs);
  }

  /** Once a prefix has failed, the rest changes nothing. */
  lemma {:induction false} ConcatFailed<T, E>(rs: seq<Result<seq<T>, E>>, k: nat)
    requires k <= |rs| && ConcatAll(rs[..k]).Failure?
    ensures ConcatAll(rs) == ConcatAll(rs[..k])
    decreases |rs|
  {
    if k < |rs| {
      var init := rs[..|rs| - 1];
      assert init[..k] == rs[..k];
      ConcatFailed(init, k);
    } else {
      assert rs[..k] == rs;
    }
  }

  /** One step of the loop. */
  lemma ConcatStep<T, E>(rs: seq<Result<seq<T>, E>>, i: nat)
    requires i < |rs| && ConcatAll(rs[..i]).Success?
    ensures ConcatAll(rs[..i + 1])
            == if rs[i].Failure? then Failure(rs[i].error) else Success(ConcatAll(rs[..i]).value + rs[i].value)
  {
    assert rs[..i + 1][..i] == rs[..i];
  }
}
