/**
 * `displayBytes`: the unit a byte count is shown in. The count is divided by
 * the unit's threshold and formatted for the locale; only the choice of unit
 * is modelled.
 */
module ByteDisplay {
  import opened Values

  /** The unit table: each unit's threshold and name. */
  const Units: seq<(nat, string)> := [
    (1, "octets"), (1000, "ko"), (1000000, "Mo"), (1000000000, "Go"),
    (1000000000000, "To"), (1000000000000000, "Po")]

  function Pow1000(i: nat): (r: nat)
    ensures r >= 1
  {
    if i == 0 then 1 else 1000 * Pow1000(i - 1)
  }

  lemma UnitsArePowers()
    ensures |Units| == 6
    ensures forall k :: 0 <= k < |Units| ==> Units[k].0 == Pow1000(k)
  {
    assert Pow1000(0) == 1;
    assert Pow1000(1) == 1000;
    assert Pow1000(2) == 1000000;
    assert Pow1000(3) == 1000000000;
    assert Pow1000(4) == 1000000000000;
    assert Pow1000(5) == 1000000000000000;
  }

  /** What `displayBytes` returns: `'0 octets'`, or the count scaled to `Units[unit]`. */
  datatype Shown = ZeroOctets | Scaled(unit: nat)

  /** `Math.abs` on what `parseInt` gave: `None` stands for `NaN`. */
  function AbsSize(size: Option<int>): Option<nat>
  {
    match size
    case None => None
    case Some(n) => Some(if n < 0 then -n else n)
  }

  /** `aSize < bound`: every comparison with `NaN` is false. */
  predicate Below(s: Option<nat>, bound: nat) {
    s.Some? && s.value < bound
  }

  /**
   * `displayBytes(aSize)` as written, with `size` standing for
   * `parseInt(aSize, 10)`. It returns `undefined` (`None`) for `NaN` and
   * for counts of at least `1000^5`: the loop looks for the first threshold
   * above the count, and there is none above `Po`'s own.
   */
  method DisplayBytes(size: Option<int>) returns (r: Option<Shown>)
    ensures size.None? ==> r.None?
    ensures AbsSize(size) == Some(0) ==> r == Some(ZeroOctets)
    ensures size.Some? && 0 < AbsSize(size).value < Pow1000(5) ==>
              r.Some? && r.value.Scaled? && r.value.unit < 5
              && Pow1000(r.value.unit) <= AbsSize(size).value < Pow1000(r.value.unit + 1)
    ensures size.Some? && AbsSize(size).value >= Pow1000(5) ==> r.None?
  {
    UnitsArePowers();
    var s := AbsSize(size);
    if s == Some(0) {
      return Some(ZeroOctets);
    }
    var i := 0;
    while i < |Units|
      invariant 0 <= i <= |Units|
      invariant forall k :: 0 <= k < i ==> !Below(s, Units[k].0)
    {
      if Below(s, Units[i].0) {
        return Some(Scaled(i - 1));
      }
      i := i + 1;
    }
    return None;
  }

  /** A count of `1000^5` octets, one Po, is shown as `undefined`. */
  method OnePetaOctetIsUndefined() returns (r: Option<Shown>)
    ensures r == None
  {
    r := DisplayBytes(Some(1000000000000000));
    assert Pow1000(5) == 1000000000000000;
  }

  /**
   * `displayBytes` as evidently intended: the largest unit whose threshold is
   * at most the count, `Po` included, so that every number is shown.
   */
  method DisplayBytesIntended(size: Option<int>) returns (r: Option<Shown>)
    ensures size.None? <==> r.None?
    ensures AbsSize(size) == Some(0) ==> r == Some(ZeroOctets)
    ensures size.Some? && AbsSize(size).value > 0 ==>
              r.Some? && r.value.Scaled? && r.value.unit < |Units|
              && Pow1000(r.value.unit) <= AbsSize(size).value
              && (r.value.unit + 1 < |Units| ==> AbsSize(size).value < Pow1000(r.value.unit + 1))
  {
    UnitsArePowers();
    var s := AbsSize(size);
    if s.None? {
      return None;
    }
    if s == Some(0) {
      return Some(ZeroOctets);
    }
    var i := 1;
    while i < |Units|
      invariant 1 <= i <= |Units|
      invariant forall k :: 0 <= k < i ==> !Below(s, Units[k].0)
    {
      if Below(s, Units[i].0) {
        return Some(Scaled(i - 1));
      }
      i := i + 1;
    }
    return Some(Scaled(|Units| - 1));
  }
}
