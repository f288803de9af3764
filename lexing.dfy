/**
 * What the loader's `istringstream` does with one line: `>>` into a string
 * reads the next whitespace-separated word, `>>` into a float reads a
 * number and, once a read fails, every later read fails too and leaves its
 * variable at the 0 it was initialised with.
 */
module Lexing {
  import opened Wrappers
  import opened Text

  predicate NoSpace(w: string) {
    forall i :: 0 <= i < |w| ==> !IsSpace(w[i])
  }

  /** Length of the leading run of non-whitespace characters. */
  function WordLen(s: string): (n: nat)
    ensures n <= |s| && NoSpace(s[..n])
    ensures n == |s| || IsSpace(s[n])
  {
    if s == [] || IsSpace(s[0]) then 0
    else
      var n := 1 + WordLen(s[1..]);
      assert s[..n] == [s[0]] + s[1..][..n - 1];
      n
  }

  /** The words successive `>>` into a string read from a line. */
  function Words(s: string): (ws: seq<string>)
    ensures forall i :: 0 <= i < |ws| ==> ws[i] != [] && NoSpace(ws[i])
    decreases |s|
  {
    if s == [] then []
    else if IsSpace(s[0]) then Words(s[1..])
    else
      var n := WordLen(s);
      [s[..n]] + Words(s[n..])
  }

  /** Words joined by single spaces: the shape of a line an exporter writes. */
  function Join(ws: seq<string>): string {
    if |ws| == 0 then ""
    else if |ws| == 1 then ws[0]
    else ws[0] + " " + Join(ws[1..])
  }

  lemma {:induction false} WordLenOfWord(w: string, t: string)
    requires NoSpace(w)
    requires t == [] || IsSpace(t[0])
    ensures WordLen(w + t) == |w|
  {
    if w != [] {
      assert (w + t)[1..] == w[1..] + t;
      WordLenOfWord(w[1..], t);
    }
  }

  /** Splitting a line written as words separated by single spaces gives the words back. */
  lemma {:induction false} WordsOfJoin(ws: seq<string>)
    requires forall i :: 0 <= i < |ws| ==> ws[i] != [] && NoSpace(ws[i])
    ensures Words(Join(ws)) == ws
  {
    if |ws| == 1 {
      WordLenOfWord(ws[0], []);
      assert ws[0][|ws[0]|..] == [];
      assert ws[0][..|ws[0]|] == ws[0];
    } else if |ws| > 1 {
      var w, rest := ws[0], Join(ws[1..]);
      var s := w + " " + rest;
      WordLenOfWord(w, " " + rest);
      assert s == w + (" " + rest);
      assert s[..|w|] == w;
      assert s[|w|..] == " " + rest;
      assert (" " + rest)[1..] == rest;
      WordsOfJoin(ws[1..]);
      assert Words(s[|w|..]) == Words(rest);
    }
  }

  /** 10 to the power `k`, as a real. */
  function Pow10(k: nat): (r: real)
    ensures r >= 1.0
  {
    if k == 0 then 1.0 else 10.0 * Pow10(k - 1)
  }

  /**
   * Reads one word as a float: an optional sign, digits, and an optional
   * fraction after '.', with at least one digit in all. Exponents, `inf`,
   * `nan` and reading only a prefix of a word are not modelled.
   */
  function ReadFloat(w: string): (r: Option<real>)
    ensures w == [] ==> r == None
  {
    var neg := |w| > 0 && w[0] == '-';
    var body := if |w| > 0 && (w[0] == '-' || w[0] == '+') then w[1..] else w;
    var n := DigitPrefixLen(body);
    var whole := DecValue(body[..n]) as real;
    var rest := body[n..];
    if rest == [] then
      if n == 0 then None else Some(if neg then -whole else whole)
    else if rest[0] != '.' || !AllDigits(rest[1..]) || (n == 0 && |rest| == 1) then None
    else
      var frac := rest[1..];
      var mag := whole + DecValue(frac) as real / Pow10(|frac|);
      Some(if neg then -mag else mag)
  }

  function Zeros(n: nat): (r: seq<real>)
    ensures |r| == n && forall i :: 0 <= i < n ==> r[i] == 0.0
  {
    seq(n, _ => 0.0)
  }

  /**
   * `ls >> x1 >> ... >> xn` with every xi initialised to 0: the words are
   * read in order until one is not a number; it and every later one stay 0.
   */
  function ReadCoords(ws: seq<string>, n: nat): (r: seq<real>)
    ensures |r| == n
    ensures forall i :: 0 <= i < n && i >= |ws| ==> r[i] == 0.0
    ensures forall i, j :: 0 <= j <= i < n && j < |ws| && ReadFloat(ws[j]).None? ==> r[i] == 0.0
  {
    if n == 0 then []
    else if ws == [] then Zeros(n)
    else
      match ReadFloat(ws[0])
      case None => Zeros(n)
      case Some(x) => [x] + ReadCoords(ws[1..], n - 1)
  }

  /**
   * When the first n words all read as numbers, the n coordinates are
   * exactly those numbers, whatever words follow them.
   */
  lemma {:induction false} ReadCoordsAllRead(ws: seq<string>, n: nat, xs: seq<real>)
    requires n <= |ws| && |xs| == n
    requires forall i :: 0 <= i < n ==> ReadFloat(ws[i]) == Some(xs[i])
    ensures ReadCoords(ws, n) == xs
  {
    if n > 0 {
      var x := xs[0];
      assert ReadFloat(ws[0]) == Some(x);
      forall i | 0 <= i < n - 1 ensures ReadFloat(ws[1..][i]) == Some(xs[1..][i]) {
        assert ws[1..][i] == ws[i + 1] && xs[1..][i] == xs[i + 1];
      }
      ReadCoordsAllRead(ws[1..], n - 1, xs[1..]);
      assert ReadCoords(ws, n) == [x] + ReadCoords(ws[1..], n - 1);
      assert xs == [x] + xs[1..];
    }
  }

  /**
   * A line with fewer words than coordinates, all of them numbers: the
   * words give the first coordinates and the rest stay 0 (`v 1 2` gives
   * (1, 2, 0)).
   */
  lemma {:induction false} ReadCoordsShortLine(ws: seq<string>, n: nat, xs: seq<real>)
    requires |ws| <= n && |xs| == |ws|
    requires forall i :: 0 <= i < |ws| ==> ReadFloat(ws[i]) == Some(xs[i])
    ensures ReadCoords(ws, n) == xs + Zeros(n - |ws|)
  {
    if ws == [] {
      assert xs + Zeros(n) == Zeros(n);
    } else {
      var x := xs[0];
      assert ReadFloat(ws[0]) == Some(x);
      forall i | 0 <= i < |ws| - 1 ensures ReadFloat(ws[1..][i]) == Some(xs[1..][i]) {
        assert ws[1..][i] == ws[i + 1] && xs[1..][i] == xs[i + 1];
      }
      ReadCoordsShortLine(ws[1..], n - 1, xs[1..]);
      assert ReadCoords(ws, n) == [x] + ReadCoords(ws[1..], n - 1);
      assert xs + Zeros(n - |ws|) == [x] + (xs[1..] + Zeros(n - |ws|));
    }
  }
}
