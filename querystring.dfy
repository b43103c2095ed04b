/**
 * The `querystring` template tag (assets/templatetags/querystring.py):
 * copy the request's GET parameters, then for each keyword argument drop
 * the key when the value is None and set it to that single value
 * otherwise. GET parameters are multi-valued, so a key maps to a list of
 * values; keyword arguments come in call order with distinct names.
 */
module QueryString {
  import opened Base

  type Params = map<string, seq<string>>

  /** One keyword argument of the tag: its name and its value, None for Python's None. */
  datatype Kwarg = Kwarg(key: string, value: Option<string>)

  predicate DistinctKeys(kwargs: seq<Kwarg>) {
    forall i, j :: 0 <= i < j < |kwargs| ==> kwargs[i].key != kwargs[j].key
  }

  predicate Named(kwargs: seq<Kwarg>, key: string) {
    exists i :: 0 <= i < |kwargs| && kwargs[i].key == key
  }

  /** One turn of the loop: pop the key for None, else replace its values by the one value. */
  function Step(params: Params, kw: Kwarg): Params {
    if kw.value.None? then params - {kw.key} else params[kw.key := [kw.value.value]]
  }

  /** The parameters after all keyword arguments, applied in order. */
  function Apply(params: Params, kwargs: seq<Kwarg>): Params {
    if kwargs == [] then params
    else Step(Apply(params, kwargs[..|kwargs| - 1]), kwargs[|kwargs| - 1])
  }

  /**
   * The tag's loop over kwargs.items(), working on a copy: `params` is a
   * value, so the caller's parameters are left as they were.
   */
  method Querystring(params: Params, kwargs: seq<Kwarg>) returns (updated: Params)
    ensures updated == Apply(params, kwargs)
  {
    updated := params;
    var i := 0;
    while i < |kwargs|
      invariant 0 <= i <= |kwargs|
      invariant updated == Apply(params, kwargs[..i])
    {
      var kw := kwargs[i];
      if kw.value.None? {
        updated := updated - {kw.key};
      } else {
        updated := updated[kw.key := [kw.value.value]];
      }
      assert kwargs[..i + 1][..i] == kwargs[..i];
      i := i + 1;
    }
    assert kwargs[..i] == kwargs;
  }

  /** A key passed as None is absent afterwards; any other value becomes the key's only value. */
  lemma {:induction false} ApplyNamed(params: Params, kwargs: seq<Kwarg>, i: nat)
    requires DistinctKeys(kwargs) && i < |kwargs|
    ensures var r := Apply(params, kwargs);
            (kwargs[i].value.None? ==> kwargs[i].key !in r) &&
            (kwargs[i].value.Some? ==> kwargs[i].key in r && r[kwargs[i].key] == [kwargs[i].value.value])
  {
    var init := kwargs[..|kwargs| - 1];
    if i < |init| {
      assert DistinctKeys(init) by {
        forall a, b | 0 <= a < b < |init| ensures init[a].key != init[b].key {
          assert init[a] == kwargs[a] && init[b] == kwargs[b];
        }
      }
      assert init[i] == kwargs[i];
      ApplyNamed(params, init, i);
    }
  }

  /** Keys not named by any keyword argument keep their values, and absent ones stay absent. */
  lemma {:induction false} ApplyOthers(params: Params, kwargs: seq<Kwarg>, key: string)
    requires !Named(kwargs, key)
    ensures (key in Apply(params, kwargs) <==> key in params)
    ensures key in params ==> Apply(params, kwargs)[key] == params[key]
  {
    if kwargs != [] {
      var init := kwargs[..|kwargs| - 1];
      assert forall i :: 0 <= i < |init| ==> init[i] == kwargs[i];
      ApplyOthers(params, init, key);
      assert kwargs[|kwargs| - 1].key != key;
    }
  }

  /** Removing a key that is not there changes nothing. */
  lemma PopAbsent(params: Params, key: string)
    requires key !in params
    ensures Step(params, Kwarg(key, None)) == params
  {
  }

  /** Applying the same keyword arguments twice gives what applying them once gives. */
  lemma ApplyIdempotent(params: Params, kwargs: seq<Kwarg>)
    requires DistinctKeys(kwargs)
    ensures Apply(Apply(params, kwargs), kwargs) == Apply(params, kwargs)
  {
    var once := Apply(params, kwargs);
    var twice := Apply(once, kwargs);
    forall key | key in twice || key in once
      ensures key in twice && key in once && twice[key] == once[key]
    {
      if Named(kwargs, key) {
        var i :| 0 <= i < |kwargs| && kwargs[i].key == key;
        ApplyNamed(params, kwargs, i);
        ApplyNamed(once, kwargs, i);
      } else {
        ApplyOthers(params, kwargs, key);
        ApplyOthers(once, kwargs, key);
      }
    }
  }
}
