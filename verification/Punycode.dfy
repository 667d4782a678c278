/**
 * Punycode: the decoder of RFC 3492 section 6.2 as the reference, the variable-length integers and
 * bias adaptation of sections 3.3 and 6.1, and what a correct encoder must emit.
 */
module Punycode {
  import opened Basics

  const INVALID: nat := 0xFFFF_FFFF
  type CodePoint = c: nat | c < TWO32

  const INITIAL_N: nat := 128
  const INITIAL_BIAS: nat := 72
  const DELIMITER: byte := 45

  // ---- Digits ----

  /** alphabet[d]. */
  function Letter(d: nat): byte
    requires d < 36
  {
    if d < 26 then 97 + d else 22 + d
  }

  /** The digit a basic code point stands for, in either case. */
  function Digit(c: byte): Option<nat> {
    if 97 <= c <= 122 then Some(c - 97)
    else if 65 <= c <= 90 then Some(c - 65)
    else if 48 <= c <= 57 then Some(c - 22)
    else None
  }

  lemma {:induction false} DigitOfLetter(d: nat)
    requires d < 36
    ensures Digit(Letter(d)) == Some(d) && Letter(d) != DELIMITER
  {
  }

  function Threshold(k: nat, bias: nat): (t: nat)
    ensures 1 <= t <= 26
  {
    if k <= bias then 1 else if k >= bias + 26 then 26 else k - bias
  }

  lemma {:induction false} MulAtLeast(q: nat, y: nat)
    requires y > 0
    ensures q <= q * y
  {
    if q > 0 {
      MulAtLeast(q - 1, y);
      assert q * y == (q - 1) * y + y;
    }
  }

  lemma {:induction false} DivBounds(x: nat, y: nat)
    requires y > 0
    ensures x == (x / y) * y + x % y && x % y < y && 0 <= x / y <= x
  {
    var q := x / y;
    assert x == q * y + x % y;
    assert q >= 0;
    MulAtLeast(q, y);
  }

  /** The digit written for q at threshold t, and what is left for the next digits. */
  function LowDigit(q: nat, t: nat): (d: nat)
    requires 1 <= t <= 26 && t <= q
    ensures t <= d < 36
  {
    DivBounds(q - t, 36 - t);
    t + (q - t) % (36 - t)
  }

  function HighPart(q: nat, t: nat): (h: nat)
    requires 1 <= t <= 26 && t <= q
    ensures h < q
  {
    DivBounds(q - t, 36 - t);
    (q - t) / (36 - t)
  }

  /** The generalized variable-length integer of q, from digit position k on. */
  function EncodeVar(q: nat, k: nat, bias: nat): Bytes
    decreases q
  {
    var t := Threshold(k, bias);
    if q < t then [Letter(q)]
    else [Letter(LowDigit(q, t))] + EncodeVar(HighPart(q, t), k + 36, bias)
  }

  /** Reads one variable-length integer, adding it to i with weight w. */
  function DecodeVar(s: Bytes, k: nat, bias: nat, i: nat, w: nat): Option<(nat, Bytes)>
    decreases |s|
  {
    if s == [] || Digit(s[0]).None? then None
    else
      var d := Digit(s[0]).value;
      var t := Threshold(k, bias);
      if d < t then Some((i + d * w, s[1..]))
      else DecodeVar(s[1..], k + 36, bias, i + d * w, w * (36 - t))
  }

  lemma {:induction false} DecodeVarOfEncodeVar(q: nat, k: nat, bias: nat, i: nat, w: nat, rest: Bytes)
    ensures DecodeVar(EncodeVar(q, k, bias) + rest, k, bias, i, w) == Some((i + q * w, rest))
    decreases q
  {
    hide LowDigit, HighPart, Threshold, Digit, Letter;
    var t := Threshold(k, bias);
    var s := EncodeVar(q, k, bias) + rest;
    if q < t {
      DigitOfLetter(q);
      assert s[1..] == rest;
    } else {
      var d, h := LowDigit(q, t), HighPart(q, t);
      DigitOfLetter(d);
      Weights(q, t, w);
      assert s[1..] == EncodeVar(h, k + 36, bias) + rest;
      DecodeVarOfEncodeVar(h, k + 36, bias, i + d * w, w * (36 - t), rest);
    }
  }

  lemma {:induction false} Shuffle(d: nat, h: nat, y: nat, w: nat)
    ensures d * w + h * (w * y) == (d + h * y) * w
    ensures d * w >= 0 && w * y >= 0
  {
    assert h * (w * y) == (h * y) * w;
    assert (d + h * y) * w == d * w + (h * y) * w;
  }

  lemma {:induction false} Weights(q: nat, t: nat, w: nat)
    requires 1 <= t <= 26 && t <= q
    ensures LowDigit(q, t) * w + HighPart(q, t) * (w * (36 - t)) == q * w
    ensures LowDigit(q, t) * w >= 0 && w * (36 - t) >= 0
  {
    DivBounds(q - t, 36 - t);
    var d, h, y := LowDigit(q, t), HighPart(q, t), 36 - t;
    Shuffle(d, h, y, w);
    assert d + h * y == q;
  }

  lemma {:induction false} EncodeVarHasNoDelimiter(q: nat, k: nat, bias: nat)
    ensures DELIMITER !in EncodeVar(q, k, bias)
    decreases q
  {
    var t := Threshold(k, bias);
    if q < t {
      DigitOfLetter(q);
    } else {
      DigitOfLetter(LowDigit(q, t));
      EncodeVarHasNoDelimiter(HighPart(q, t), k + 36, bias);
    }
  }

  // ---- Bias adaptation of the decoder, in the parameters of section 5 ----

  const BASE: nat := 36
  const T_MIN: nat := 1
  const T_MAX: nat := 26
  const SKEW: nat := 38
  const DAMP: nat := 700

  /** The loop of adapt() in section 6.1, k being what it has counted so far. */
  function AdaptLoop(delta: nat, k: nat): nat
    decreases delta
  {
    if delta > ((BASE - T_MIN) * T_MAX) / 2 then AdaptLoop(delta / (BASE - T_MIN), k + BASE)
    else k + ((BASE - T_MIN + 1) * delta) / (delta + SKEW)
  }

  function Adapt(delta: nat, numPoints: nat, first: bool): nat
    requires numPoints > 0
  {
    var d := if first then delta / DAMP else delta / 2;
    DivBounds(d, numPoints);
    AdaptLoop(d + d / numPoints, 0)
  }

  // ---- The decoder (section 6.2) ----

  datatype Decoder = Decoder(n: nat, i: nat, bias: nat, output: seq<nat>)

  function InsertAt(s: seq<nat>, i: nat, c: nat): seq<nat>
    requires i <= |s|
  {
    s[..i] + [c] + s[i..]
  }

  /** Consuming one delta. */
  function Step(st: Decoder, delta: nat): Decoder {
    var i := st.i + delta;
    var len := |st.output| + 1;
    var n := st.n + i / len;
    var pos := i % len;
    Decoder(n, pos + 1, Adapt(delta, len, st.i == 0), InsertAt(st.output, pos, n))
  }

  lemma {:induction false} DecodeVarConsumes(s: Bytes, k: nat, bias: nat, i: nat, w: nat)
    ensures DecodeVar(s, k, bias, i, w).Some? ==>
      |DecodeVar(s, k, bias, i, w).value.1| < |s| && DecodeVar(s, k, bias, i, w).value.0 >= i
    decreases |s|
  {
    if s != [] && Digit(s[0]).Some? {
      var d, t := Digit(s[0]).value, Threshold(k, bias);
      assert d * w >= 0;
      if d >= t {
        DecodeVarConsumes(s[1..], k + 36, bias, i + d * w, w * (36 - t));
      }
    }
  }

  function DecodeDeltas(s: Bytes, st: Decoder): Option<seq<nat>>
    decreases |s|
  {
    if s == [] then Some(st.output)
    else
      DecodeVarConsumes(s, 36, st.bias, st.i, 1);
      var r := DecodeVar(s, 36, st.bias, st.i, 1);
      if r.None? then None
      else DecodeDeltas(r.value.1, Step(st, r.value.0 - st.i))
  }

  /** The index of the last delimiter, or 0. */
  function LastDelimiter(s: Bytes): (b: nat)
    ensures b == 0 || b < |s|
  {
    if s == [] || s[|s| - 1] == DELIMITER then (if s == [] then 0 else |s| - 1)
    else LastDelimiter(s[..|s| - 1])
  }

  /** Decodes what follows the "xn--" prefix. */
  function Decode(s: Bytes): Option<seq<nat>> {
    var b := LastDelimiter(s);
    if exists i :: 0 <= i < b && s[i] >= 128 then None
    else DecodeDeltas(if b > 0 then s[b + 1..] else s, Decoder(INITIAL_N, 0, INITIAL_BIAS, s[..b]))
  }

  lemma {:induction false} LastDelimiterSplits(front: Bytes, back: Bytes)
    requires DELIMITER !in back
    ensures LastDelimiter(front + [DELIMITER] + back) == |front|
    ensures LastDelimiter(back) == 0
  {
    var s := front + [DELIMITER] + back;
    if back == [] {
      assert s == front + [DELIMITER];
    } else {
      var init := back[..|back| - 1];
      assert s[..|s| - 1] == front + [DELIMITER] + init;
      assert back[|back| - 1] in back && s[|s| - 1] == back[|back| - 1];
      LastDelimiterSplits(front, init);
    }
  }

  // ---- Sequences of deltas ----

  function After(deltas: seq<nat>, st: Decoder): Decoder {
    if deltas == [] then st else Step(After(deltas[..|deltas| - 1], st), deltas[|deltas| - 1])
  }

  function Encoded(deltas: seq<nat>, st: Decoder): Bytes {
    if deltas == [] then []
    else
      var init := deltas[..|deltas| - 1];
      Encoded(init, st) + EncodeVar(deltas[|deltas| - 1], 36, After(init, st).bias)
  }

  /** The decoder reads the deltas back one by one. */
  lemma {:induction false} DecodeEncoded(deltas: seq<nat>, st: Decoder, rest: Bytes)
    ensures DecodeDeltas(Encoded(deltas, st) + rest, st) == DecodeDeltas(rest, After(deltas, st))
    ensures DELIMITER !in Encoded(deltas, st)
    decreases |deltas|
  {
    if deltas == [] {
      assert Encoded(deltas, st) + rest == rest;
    } else {
      var init, last := deltas[..|deltas| - 1], deltas[|deltas| - 1];
      var before := After(init, st);
      var v := EncodeVar(last, 36, before.bias);
      DecodeEncoded(init, st, v + rest);
      assert Encoded(deltas, st) + rest == Encoded(init, st) + (v + rest);
      DecodeVarOfEncodeVar(last, 36, before.bias, before.i, 1, rest);
      EncodeVarHasNoDelimiter(last, 36, before.bias);
      EncodeVarNonEmpty(last, 36, before.bias);
      assert v + rest != [];
    }
  }

  lemma {:induction false} EncodeVarNonEmpty(q: nat, k: nat, bias: nat)
    ensures EncodeVar(q, k, bias) != []
  {
  }

  // ---- Which code points are already in place ----

  predicate Placed(cps: seq<nat>, n: nat, j: nat, x: nat)
    requires x < |cps|
  {
    cps[x] < n || (cps[x] == n && x < j)
  }

  /** The code points among the first m that are below n, or equal to n and before position j. */
  function Select(cps: seq<nat>, n: nat, j: nat, m: nat): seq<nat>
    requires m <= |cps|
  {
    if m == 0 then []
    else Select(cps, n, j, m - 1) + (if Placed(cps, n, j, m - 1) then [cps[m - 1]] else [])
  }

  /** Placing position j of value n inserts it after the ones placed before it. */
  lemma {:induction false} SelectInsert(cps: seq<nat>, n: nat, j: nat, m: nat)
    requires j < m <= |cps| && cps[j] == n
    ensures |Select(cps, n, j, j)| <= |Select(cps, n, j, m)|
    ensures Select(cps, n, j + 1, m) == InsertAt(Select(cps, n, j, m), |Select(cps, n, j, j)|, n)
  {
    if m == j + 1 {
      SelectSame(cps, n, j, n, j + 1, j);
      var s := Select(cps, n, j, j);
      assert InsertAt(s, |s|, n) == s + [n];
    } else {
      SelectInsert(cps, n, j, m - 1);
    }
  }

  /** Two thresholds that agree on the first m positions select the same. */
  lemma {:induction false} SelectSame(cps: seq<nat>, n: nat, j: nat, n': nat, j': nat, m: nat)
    requires m <= |cps|
    requires forall x | 0 <= x < m :: Placed(cps, n, j, x) <==> Placed(cps, n', j', x)
    ensures Select(cps, n, j, m) == Select(cps, n', j', m)
  {
    if m > 0 {
      SelectSame(cps, n, j, n', j', m - 1);
    }
  }

  lemma {:induction false} SelectAll(cps: seq<nat>, n: nat, j: nat, m: nat)
    requires m <= |cps|
    ensures |Select(cps, n, j, m)| <= m
    ensures |Select(cps, n, j, m)| == m ==> Select(cps, n, j, m) == cps[..m]
    ensures |Select(cps, n, j, m)| < m ==> exists x :: 0 <= x < m && !Placed(cps, n, j, x)
    ensures (exists x :: 0 <= x < m && !Placed(cps, n, j, x)) ==> |Select(cps, n, j, m)| < m
  {
    if m > 0 {
      SelectAll(cps, n, j, m - 1);
      assert cps[..m] == cps[..m - 1] + [cps[m - 1]];
    }
  }

  lemma {:induction false} DivMod(q: nat, r: nat, d: nat)
    requires r < d
    ensures (q * d + r) / d == q && (q * d + r) % d == r
  {
    var a := q * d + r;
    DivBounds(a, d);
    var e := a / d - q;
    assert e * d == r - a % d;
    assert e >= 1 ==> e * d >= d;
    assert e <= -1 ==> e * d + d <= 0;
  }

  /** Where the next insertion lands: value n at the place of the C code points before it. */
  lemma {:induction false} StepInserts(st: Decoder, delta: nat, n: nat, c: nat)
    requires n >= st.n && c <= |st.output|
    requires st.i + delta == (n - st.n) * (|st.output| + 1) + c
    ensures Step(st, delta) == Decoder(n, c + 1, Adapt(delta, |st.output| + 1, st.i == 0), InsertAt(st.output, c, n))
  {
    DivMod(n - st.n, c, |st.output| + 1);
  }

  // ---- A text has one sequence of deltas ----

  /** n is the greatest value and i is just behind its last place, once something has been inserted. */
  ghost predicate AtLast(st: Decoder) {
    && st.i <= |st.output|
    && (forall x | 0 <= x < |st.output| :: st.output[x] <= st.n)
    && (forall x | st.i <= x < |st.output| :: st.output[x] < st.n)
    && (st.i > 0 ==> st.output[st.i - 1] == st.n)
  }

  lemma {:induction false} StepAtLast(st: Decoder, delta: nat)
    requires AtLast(st)
    ensures AtLast(Step(st, delta)) && Step(st, delta).i > 0 && |Step(st, delta).output| == |st.output| + 1
  {
    hide Adapt;
    var len := |st.output| + 1;
    DivBounds(st.i + delta, len);
    var t := Step(st, delta);
    var pos := t.i - 1;
    if t.n == st.n {
      DivisionByOnce(st.i + delta, len);
    }
    forall x | 0 <= x < |t.output|
      ensures t.output[x] == if x < pos then st.output[x] else if x == pos then t.n else st.output[x - 1]
    {
    }
  }

  lemma {:induction false} DivisionByOnce(a: nat, b: nat)
    requires b > 0 && a / b == 0
    ensures a < b && a % b == a
  {
  }

  lemma {:induction false} AfterAtLast(deltas: seq<nat>, st: Decoder)
    requires AtLast(st)
    ensures AtLast(After(deltas, st)) && |After(deltas, st).output| == |st.output| + |deltas|
    ensures deltas != [] ==> After(deltas, st).i > 0
  {
    hide AtLast, Step;
    if deltas != [] {
      var init := deltas[..|deltas| - 1];
      AfterAtLast(init, st);
      StepAtLast(After(init, st), deltas[|deltas| - 1]);
    }
  }

  /** The value inserted last and its place can be seen in the text. */
  lemma {:induction false} LastInserted(a: Decoder, b: Decoder)
    requires AtLast(a) && AtLast(b) && a.output == b.output && a.i > 0 && b.i > 0
    ensures a.n == b.n && a.i == b.i
  {
    assert a.output[a.i - 1] <= b.n && b.output[b.i - 1] <= a.n;
  }

  lemma {:induction false} InsertAtRemoves(s: seq<nat>, t: seq<nat>, i: nat, c: nat)
    requires i <= |s| && i <= |t| && InsertAt(s, i, c) == InsertAt(t, i, c)
    ensures s == t
  {
    var r := InsertAt(s, i, c);
    assert s == r[..i] + r[i + 1..];
    assert t == r[..i] + r[i + 1..];
  }

  lemma {:induction false} SameQuotient(a: nat, b: nat, d: nat)
    requires d > 0 && a / d == b / d && a % d == b % d
    ensures a == b
  {
    DivBounds(a, d);
    DivBounds(b, d);
  }

  lemma {:induction false} StepInjective(a: Decoder, b: Decoder, d: nat, e: nat)
    requires AtLast(a) && AtLast(b) && |a.output| == |b.output| && Step(a, d).output == Step(b, e).output
    ensures a.output == b.output
    ensures a == b ==> d == e
  {
    hide Adapt, AtLast, InsertAt;
    StepAtLast(a, d);
    StepAtLast(b, e);
    var s, t := Step(a, d), Step(b, e);
    LastInserted(s, t);
    InsertAtRemoves(a.output, b.output, s.i - 1, s.n);
    if a == b {
      SameQuotient(a.i + d, b.i + e, |a.output| + 1);
    }
  }

  /** Deltas that rebuild the same text from the same start are the same: a text has one encoding. */
  lemma {:induction false} DeltasUnique(ds: seq<nat>, es: seq<nat>, st: Decoder)
    requires AtLast(st) && After(ds, st).output == After(es, st).output
    ensures ds == es
  {
    hide AtLast, Step;
    AfterAtLast(ds, st);
    AfterAtLast(es, st);
    if ds != [] {
      var d, e := ds[..|ds| - 1], es[..|es| - 1];
      AfterAtLast(d, st);
      AfterAtLast(e, st);
      StepInjective(After(d, st), After(e, st), ds[|ds| - 1], es[|es| - 1]);
      DeltasUnique(d, e, st);
      assert ds == d + [ds[|ds| - 1]] && es == e + [es[|es| - 1]];
    }
  }
}
