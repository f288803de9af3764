/**
 * Face-corner tokens of the OBJ loader: OBJ index resolution (`idx0`),
 * slash splitting (`dividirPorBarra`), integer reading (`lerInt`) and the
 * corner parser with its range clamp (`parseCanto`).
 */
module Corner {
  import opened Wrappers
  import opened Text

  const INT_MIN: int := -0x8000_0000
  const INT_MAX: int := 0x7FFF_FFFF

  /** A triangle corner: 0-based indices into the position, texcoord and normal pools; -1 = absent. */
  datatype CantoTri = CantoTri(v: int, vt: int, vn: int)

  /** An OBJ index (1-based, or negative = counted back from the end) to 0-based; 0 gives -1. */
  function Idx0(idxFromObj: int, count: int): (k: int)
    ensures idxFromObj == 0 ==> k == -1
    ensures 0 <= k < count ==> Refers(Some(idxFromObj), k, count)
  {
    if idxFromObj > 0 then idxFromObj - 1
    else if idxFromObj < 0 then count + idxFromObj
    else -1
  }

  /**
   * What an OBJ index means, independently of `Idx0`: the token `i` names
   * element `k` of a pool of `count` elements when it is `k + 1` (counted
   * from the front, 1-based) or `k - count` (counted back from the end).
   */
  ghost predicate Refers(tok: Option<int>, k: int, count: int) {
    tok.Some? && 0 <= k < count && (tok.value == k + 1 || tok.value == k - count)
  }

  /** `Idx0` finds exactly the element an index refers to, when there is one. */
  lemma Idx0Refers(i: int, count: int, k: int)
    ensures Refers(Some(i), k, count) <==> k == Idx0(i, count) && 0 <= k < count
  {
  }

  /** Every element of a pool is named both by its 1-based and by its negative index. */
  lemma Idx0Inverse(k: int, count: int)
    requires 0 <= k < count
    ensures Idx0(k + 1, count) == k && Idx0(k - count, count) == k
  {
  }

  /** First position at or after `from` where `s` holds `c` (`string::find`). */
  function Find(s: string, c: char, from: nat): (r: Option<nat>)
    ensures r.Some? ==> from <= r.value < |s| && s[r.value] == c
    ensures r.Some? ==> forall i :: from <= i < r.value ==> s[i] != c
    ensures r.None? ==> forall i :: from <= i < |s| ==> s[i] != c
    decreases |s| - from
  {
    if from >= |s| then None
    else if s[from] == c then Some(from)
    else Find(s, c, from + 1)
  }

  /** The three sub-tokens of a face corner: position, texcoord, normal. */
  datatype Parts = Parts(sv: string, st: string, sn: string)

  /** `s` holds at least two slashes. */
  ghost predicate TwoSlashes(s: string) {
    exists i, j :: 0 <= i < j < |s| && s[i] == '/' && s[j] == '/'
  }

  /**
   * Splits a corner token at its first two slashes. Without a slash the
   * whole token is the position part; with one slash there is no normal
   * part; after the second slash the normal part is the whole rest.
   */
  function DividirPorBarra(s: string): (r: Parts)
    ensures '/' !in s ==> r == Parts(s, "", "")
    ensures '/' in s ==> '/' !in r.sv && '/' !in r.st
    ensures '/' in s && !TwoSlashes(s) ==> s == r.sv + "/" + r.st && r.sn == ""
    ensures TwoSlashes(s) ==> s == r.sv + "/" + r.st + "/" + r.sn
  {
    match Find(s, '/', 0)
    case None => Parts(s, "", "")
    case Some(p1) =>
      match Find(s, '/', p1 + 1)
      case None =>
        OneSlash(s, p1);
        Parts(s[..p1], s[p1 + 1..], "")
      case Some(p2) =>
        TwoSlashesAt(s, p1, p2);
        Parts(s[..p1], s[p1 + 1..p2], s[p2 + 1..])
  }

  /** The split when `p1` is the only slash of `s`. */
  lemma OneSlash(s: string, p1: nat)
    requires Find(s, '/', 0) == Some(p1) && Find(s, '/', p1 + 1).None?
    ensures '/' in s && !TwoSlashes(s)
    ensures '/' !in s[..p1] && '/' !in s[p1 + 1..]
    ensures s == s[..p1] + "/" + s[p1 + 1..]
  {
    assert s[p1] == '/';
    forall i, j | 0 <= i < j < |s| && s[i] == '/' ensures s[j] != '/' {
      assert p1 <= i;
    }
  }

  /** The split when `p1` and `p2` are the first two slashes of `s`. */
  lemma TwoSlashesAt(s: string, p1: nat, p2: nat)
    requires Find(s, '/', 0) == Some(p1) && Find(s, '/', p1 + 1) == Some(p2)
    ensures TwoSlashes(s)
    ensures '/' !in s[..p1] && '/' !in s[p1 + 1..p2]
    ensures s == s[..p1] + "/" + s[p1 + 1..p2] + "/" + s[p2 + 1..]
  {
    var a, b, c := s[..p1], s[p1 + 1..p2], s[p2 + 1..];
    assert s[p1] == '/' && s[p2] == '/';
    assert forall i :: 0 <= i < |a| ==> a[i] != '/';
    assert forall i :: 0 <= i < |b| ==> b[i] == s[p1 + 1 + i];
    assert s[..p2] == a + "/" + b;
    assert s == s[..p2] + "/" + c;
  }

  /** `Find` stops at the first occurrence at or after `from`. */
  lemma FindFirst(s: string, c: char, from: nat, k: nat)
    requires from <= k < |s| && s[k] == c
    requires forall i :: from <= i < k ==> s[i] != c
    ensures Find(s, c, from) == Some(k)
  {
  }

  /** Joining parts with slashes and splitting again gives the parts back (`v/vt/vn`, `v//vn`). */
  lemma SplitOfJoin3(a: string, b: string, c: string)
    requires '/' !in a && '/' !in b
    ensures DividirPorBarra(a + "/" + b + "/" + c) == Parts(a, b, c)
  {
    var s := a + "/" + b + "/" + c;
    var p2 := |a| + 1 + |b|;
    assert forall i :: 0 <= i < |a| ==> s[i] == a[i];
    assert forall i :: |a| < i < p2 ==> s[i] == b[i - |a| - 1];
    FindFirst(s, '/', 0, |a|);
    FindFirst(s, '/', |a| + 1, p2);
    assert s[..|a|] == a && s[|a| + 1..p2] == b && s[p2 + 1..] == c;
  }

  /** Same for the two-part form `v/vt`. */
  lemma SplitOfJoin2(a: string, b: string)
    requires '/' !in a && '/' !in b
    ensures DividirPorBarra(a + "/" + b) == Parts(a, b, "")
  {
    var s := a + "/" + b;
    assert forall i :: 0 <= i < |a| ==> s[i] == a[i];
    assert forall i :: |a| < i < |s| ==> s[i] == b[i - |a| - 1];
    FindFirst(s, '/', 0, |a|);
    assert Find(s, '/', |a| + 1).None?;
    assert s[..|a|] == a && s[|a| + 1..] == b;
  }

  /**
   * `stoi`: leading whitespace is skipped, then an optional sign and the
   * longest run of digits are read (anything after them is ignored); no
   * digits, or a value outside 32-bit `int`, is a failure. `lerInt` also
   * fails on the empty string.
   */
  function LerInt(s: string): (r: Option<int>)
    ensures s == [] ==> r == None
    ensures r.Some? ==> INT_MIN <= r.value <= INT_MAX
  {
    if s == [] then None else StoI(SkipSpace(s))
  }

  /** `stoi` once the leading whitespace is skipped. */
  function StoI(t: string): (r: Option<int>)
    ensures r.Some? ==> INT_MIN <= r.value <= INT_MAX
  {
    var signed := t != [] && (t[0] == '-' || t[0] == '+');
    var body := if signed then t[1..] else t;
    var n := DigitPrefixLen(body);
    if n == 0 then None
    else
      var mag: int := DecValue(body[..n]);
      var v := if signed && t[0] == '-' then -mag else mag;
      if INT_MIN <= v <= INT_MAX then Some(v) else None
  }

  /** `stoi` reads back the spelling of a natural number, whatever non-digit text follows it. */
  lemma StoIOfNat(m: nat, junk: string)
    requires junk == [] || !IsDigit(junk[0])
    ensures StoI(NatToDec(m) + junk) == if m <= INT_MAX then Some(m) else None
    ensures StoI("-" + NatToDec(m) + junk) == if m <= -INT_MIN then Some(0 - m) else None
  {
    var ds := NatToDec(m);
    DecValueOfNatToDec(m);
    DigitPrefixOfDigits(ds, junk);
    assert (ds + junk)[..|ds|] == ds;
    StoIUnsigned(ds + junk, |ds|);
    StoIOfNegated(m, junk);
  }

  /** `stoi` reads back '-' followed by the spelling of a natural number, whatever non-digit text follows. */
  lemma StoIOfNegated(m: nat, junk: string)
    requires junk == [] || !IsDigit(junk[0])
    ensures StoI("-" + NatToDec(m) + junk) == if m <= -INT_MIN then Some(0 - m) else None
  {
    var ds := NatToDec(m);
    DecValueOfNatToDec(m);
    NegativeSpelling(ds, junk);
    StoINegative("-" + ds + junk, |ds|);
  }

  /** `stoi` reads '+' followed by the spelling of a natural number as that number, when it fits. */
  lemma StoIOfPlus(m: nat, junk: string)
    requires junk == [] || !IsDigit(junk[0])
    ensures StoI("+" + NatToDec(m) + junk) == if m <= INT_MAX then Some(m) else None
  {
    var ds := NatToDec(m);
    var t := "+" + ds + junk;
    DecValueOfNatToDec(m);
    DigitPrefixOfDigits(ds, junk);
    assert t[1..] == ds + junk;
    assert (ds + junk)[..|ds|] == ds;
  }

  /** '-', a digit run and a non-digit: the run is the whole digit prefix after the sign. */
  lemma NegativeSpelling(ds: string, junk: string)
    requires ds != [] && AllDigits(ds)
    requires junk == [] || !IsDigit(junk[0])
    ensures var t := "-" + ds + junk;
      0 < |ds| < |t| && t[0] == '-' && DigitPrefixLen(t[1..]) == |ds| && t[1..][..|ds|] == ds
  {
    var t := "-" + ds + junk;
    DigitPrefixOfDigits(ds, junk);
    assert t[1..] == ds + junk;
  }

  /** `stoi` of text starting with a digit run of length n: that run's value, if it fits. */
  lemma StoIUnsigned(t: string, n: nat)
    requires 0 < n <= |t| && DigitPrefixLen(t) == n
    ensures StoI(t) == if DecValue(t[..n]) <= INT_MAX then Some(DecValue(t[..n])) else None
  {
    assert IsDigit(t[0]);
  }

  /** `stoi` of '-' followed by a digit run of length n: minus that run's value, if it fits. */
  lemma StoINegative(t: string, n: nat)
    requires 0 < n < |t| && t[0] == '-' && DigitPrefixLen(t[1..]) == n
    ensures StoI(t) == if DecValue(t[1..][..n]) <= -INT_MIN then Some(0 - DecValue(t[1..][..n])) else None
  {
  }

  /** A spelled-out integer has no leading whitespace, so `lerInt` hands it straight to `stoi`. */
  lemma LerIntOfSpelling(n: int, junk: string)
    ensures n < 0 ==> LerInt(IntToDec(n) + junk) == StoI("-" + NatToDec(-n) + junk)
    ensures n >= 0 ==> LerInt(IntToDec(n) + junk) == StoI(NatToDec(n) + junk)
  {
    var s := IntToDec(n) + junk;
    assert s[0] == IntToDec(n)[0];
    assert SkipSpace(s) == s;
  }

  /** `lerInt` reads back the spelling of any 32-bit integer, whatever non-digit text follows it. */
  lemma LerIntOfDec(n: int, junk: string)
    requires INT_MIN <= n <= INT_MAX
    requires junk == [] || !IsDigit(junk[0])
    ensures LerInt(IntToDec(n) + junk) == Some(n)
  {
    LerIntOfSpelling(n, junk);
    if n < 0 {
      StoIOfNat(-n, junk);
    } else {
      StoIOfNat(n, junk);
    }
  }

  /** `lerInt` rejects the spelling of any integer outside 32-bit `int` (`stoi` throws `out_of_range`). */
  lemma LerIntOutOfRange(n: int, junk: string)
    requires n < INT_MIN || INT_MAX < n
    requires junk == [] || !IsDigit(junk[0])
    ensures LerInt(IntToDec(n) + junk) == None
  {
    if n < 0 {
      NegativeTooLarge(n, junk);
    } else {
      PositiveTooLarge(n, junk);
    }
  }

  /** `lerInt` rejects the spelling of an integer above `INT_MAX`. */
  lemma PositiveTooLarge(n: int, junk: string)
    requires n > INT_MAX
    requires junk == [] || !IsDigit(junk[0])
    ensures LerInt(IntToDec(n) + junk) == None
  {
    LerIntOfSpelling(n, junk);
    StoIOfNat(n, junk);
  }

  /** `lerInt` rejects the spelling of an integer below `INT_MIN`. */
  lemma NegativeTooLarge(n: int, junk: string)
    requires n < INT_MIN
    requires junk == [] || !IsDigit(junk[0])
    ensures LerInt(IntToDec(n) + junk) == None
  {
    LerIntOfSpelling(n, junk);
    StoIOfNegated(-n, junk);
  }

  /**
   * `lerInt` rejects a token with no digit where `stoi` expects the first
   * one: after the leading whitespace and an optional sign (`stoi` throws
   * `invalid_argument`).
   */
  lemma UnreadableRejected(s: string)
    requires var t := SkipSpace(s);
      var body := if t != [] && (t[0] == '-' || t[0] == '+') then t[1..] else t;
      body == [] || !IsDigit(body[0])
    ensures LerInt(s) == None
  {
  }

  /** Every slot is either absent (-1) or a valid index into its pool. */
  predicate InRange(slot: int, count: int) {
    slot == -1 || 0 <= slot < count
  }

  /** How many corners of `cs` have no position. */
  function Unpositioned(cs: seq<CantoTri>): (r: nat)
    ensures r <= |cs|
  {
    if cs == [] then 0
    else Unpositioned(cs[..|cs| - 1]) + (if cs[|cs| - 1].v < 0 then 1 else 0)
  }

  /**
   * One slot of a parsed corner, against the sub-token it came from: a
   * valid index is exactly the element the sub-token refers to, and the
   * slot is absent exactly when the sub-token refers to no element
   * (empty, not a number, zero, or out of range).
   */
  ghost predicate SlotFrom(sub: string, slot: int, count: int) {
    InRange(slot, count) &&
    (slot >= 0 ==> Refers(LerInt(sub), slot, count)) &&
    (slot == -1 ==> forall k :: !Refers(LerInt(sub), k, count))
  }

  /** One slot of `parseCanto`: read, resolve with `idx0`, then clamp to -1 when out of range. */
  function ResolveSlot(sub: string, count: int): (slot: int)
    ensures SlotFrom(sub, slot, count)
  {
    var k := match LerInt(sub) case Some(i) => Idx0(i, count) case None => -1;
    var slot := if k < 0 || k >= count then -1 else k;
    assert forall j :: Refers(LerInt(sub), j, count) ==> j == slot;
    slot
  }

  /** Resolves one corner token against the current pool sizes, clamping bad indices to -1. */
  function ParseCanto(s: string, vcount: int, vtcount: int, vncount: int): (c: CantoTri)
    ensures var p := DividirPorBarra(s);
      SlotFrom(p.sv, c.v, vcount) && SlotFrom(p.st, c.vt, vtcount) && SlotFrom(p.sn, c.vn, vncount)
  {
    var p := DividirPorBarra(s);
    CantoTri(ResolveSlot(p.sv, vcount), ResolveSlot(p.st, vtcount), ResolveSlot(p.sn, vncount))
  }

  /** An empty sub-token leaves its own slot absent and does not disturb the others. */
  lemma EmptySubTokenAbsent(a: string, c: string, vcount: int, vtcount: int, vncount: int)
    requires '/' !in a
    ensures ParseCanto(a + "//" + c, vcount, vtcount, vncount).vt == -1
    ensures ParseCanto(a + "//" + c, vcount, vtcount, vncount).v == ParseCanto(a, vcount, vtcount, vncount).v
  {
    assert a + "//" + c == a + "/" + "" + "/" + c;
    SplitOfJoin3(a, "", c);
  }

  /** A negative token `-k` names element `count - k`: the k-th from the end of the pool as it is now. */
  lemma NegativeIndexResolves(k: int, vcount: int, vtcount: int, vncount: int)
    requires 1 <= k <= vcount && k <= -INT_MIN
    ensures ParseCanto(IntToDec(-k), vcount, vtcount, vncount) == CantoTri(vcount - k, -1, -1)
  {
    var s := IntToDec(-k);
    NoSlashInDec(-k);
    PlainToken(s, vcount, vtcount, vncount);
    DecReads(-k);
    assert ResolveSlot(s, vcount) == Idx0(-k, vcount);
  }

  /** The spelling of a 32-bit integer, alone, reads back as that integer. */
  lemma DecReads(n: int)
    requires INT_MIN <= n <= INT_MAX
    ensures LerInt(IntToDec(n)) == Some(n)
  {
    LerIntOfDec(n, []);
    assert IntToDec(n) + [] == IntToDec(n);
  }

  /** A token without '/' gives only a position: texture and normal slots stay absent. */
  lemma PlainToken(s: string, vcount: int, vtcount: int, vncount: int)
    requires '/' !in s
    ensures ParseCanto(s, vcount, vtcount, vncount) == CantoTri(ResolveSlot(s, vcount), -1, -1)
  {
    assert DividirPorBarra(s) == Parts(s, "", "");
    assert ResolveSlot("", vtcount) == -1 && ResolveSlot("", vncount) == -1;
  }

  /** A decimal spelling never contains '/'. */
  lemma NoSlashInDec(n: int)
    ensures '/' !in IntToDec(n)
  {
    var s := IntToDec(n);
    var ds := if n < 0 then NatToDec(-n) else NatToDec(n);
    assert AllDigits(ds);
    forall i | 0 <= i < |s| ensures s[i] != '/' {
      if n < 0 && i > 0 { assert s[i] == ds[i - 1]; }
      else if n >= 0 { assert s[i] == ds[i]; }
    }
  }
}
