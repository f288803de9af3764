/**
 * Fan triangulation of a polygon given by its corners: corner 0 is the
 * pivot and triangle k (2 <= k < N) is (corner 0, corner k-1, corner k).
 * The loader runs the same fan loop twice per face, once over the parsed
 * corners and once over their position indices.
 */
module Fans {

  /** The corners of the fan triangles of `cs`, three per triangle, in order. */
  function Fan<T>(cs: seq<T>): (r: seq<T>)
    ensures |r| == if |cs| < 3 then 0 else 3 * (|cs| - 2)
    ensures |r| % 3 == 0
    ensures forall x :: x in r ==> x in cs
  {
    if |cs| < 3 then []
    else
      var prev := Fan(cs[..|cs| - 1]);
      assert forall x :: x in prev ==> x in cs by {
        forall x | x in prev ensures x in cs {
          assert x in cs[..|cs| - 1];
        }
      }
      prev + [cs[0], cs[|cs| - 2], cs[|cs| - 1]]
  }

  /** Triangle k of the fan is (corner 0, corner k-1, corner k). */
  lemma {:induction false} FanTriangle<T>(cs: seq<T>, k: nat)
    requires 2 <= k < |cs|
    ensures 3 * (k - 2) + 2 < |Fan(cs)|
    ensures Fan(cs)[3 * (k - 2)] == cs[0]
    ensures Fan(cs)[3 * (k - 2) + 1] == cs[k - 1]
    ensures Fan(cs)[3 * (k - 2) + 2] == cs[k]
  {
    if k < |cs| - 1 {
      var init := cs[..|cs| - 1];
      FanTriangle(init, k);
      assert Fan(cs) == Fan(init) + [cs[0], cs[|cs| - 2], cs[|cs| - 1]];
    }
  }

  /** Appending one more corner to a polygon appends exactly one triangle to its fan. */
  lemma FanSnoc<T>(cs: seq<T>, k: nat)
    requires 2 <= k < |cs|
    ensures Fan(cs[..k + 1]) == Fan(cs[..k]) + [cs[0], cs[k - 1], cs[k]]
  {
    assert cs[..k + 1][..k] == cs[..k];
  }

  /** The fan loop: `for k in 2..N: push(c[0]); push(c[k-1]); push(c[k])`, onto `acc`. */
  method AppendFan<T>(acc: seq<T>, cs: seq<T>) returns (r: seq<T>)
    ensures r == acc + Fan(cs)
  {
    r := acc;
    if |cs| >= 3 {
      var k := 2;
      while k < |cs|
        invariant 2 <= k <= |cs|
        invariant r == acc + Fan(cs[..k])
      {
        FanSnoc(cs, k);
        r := r + [cs[0], cs[k - 1], cs[k]];
        k := k + 1;
      }
      assert cs[..|cs|] == cs;
    }
  }
}
