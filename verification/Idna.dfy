/** Encoding one label of a host name (libuv, src/idna.c: uv__idna_toascii_label). */
module Idna {
  import opened Basics
  import opened Punycode

  datatype Status = Length(h: nat) | Done | TooBig | Invalid

  const PREFIX: Bytes := [120, 110, 45, 45]

  /** The basic code points of a label, in order. */
  function Ascii(cps: seq<nat>): Bytes {
    if cps == [] then []
    else Ascii(cps[..|cps| - 1]) + (if cps[|cps| - 1] < 128 then [cps[|cps| - 1]] else [])
  }

  function CountWide(cps: seq<nat>): nat {
    if cps == [] then 0
    else CountWide(cps[..|cps| - 1]) + (if cps[|cps| - 1] < 128 then 0 else 1)
  }

  lemma {:induction false} AsciiIsSelection(cps: seq<nat>, m: nat)
    requires m <= |cps|
    ensures Ascii(cps[..m]) == Select(cps, 128, 0, m)
    ensures |Ascii(cps[..m])| + CountWide(cps[..m]) == m
  {
    if m > 0 {
      AsciiIsSelection(cps, m - 1);
      assert cps[..m][..m - 1] == cps[..m - 1];
    }
  }

  /** Everything before the deltas of a label that needs encoding. */
  function Head(cps: seq<nat>): Bytes {
    PREFIX + Ascii(cps) + (if Ascii(cps) == [] then [] else [DELIMITER])
  }

  function Start(cps: seq<nat>): Decoder {
    Decoder(INITIAL_N, 0, INITIAL_BIAS, Ascii(cps))
  }

  /** A label whose deltas rebuild cps decodes to cps. */
  lemma {:induction false} LabelDecodes(cps: seq<nat>, deltas: seq<nat>)
    requires After(deltas, Start(cps)).output == cps
    ensures Decode((Head(cps) + Encoded(deltas, Start(cps)))[4..]) == Some(cps)
  {
    hide Decode, DecodeDeltas, Encoded, After, Ascii;
    var ascii, code := Ascii(cps), Encoded(deltas, Start(cps));
    DecodeAllEncoded(deltas, Start(cps));
    AsciiIsSmall(cps);
    DecodeSplits(ascii, code);
    assert (Head(cps) + code)[4..] == Tail(ascii, code);
  }

  lemma {:induction false} DecodeAllEncoded(deltas: seq<nat>, st: Decoder)
    ensures DecodeDeltas(Encoded(deltas, st), st) == Some(After(deltas, st).output)
    ensures DELIMITER !in Encoded(deltas, st)
  {
    hide Encoded, After;
    DecodeEncoded(deltas, st, []);
    assert Encoded(deltas, st) + [] == Encoded(deltas, st);
  }

  function Tail(ascii: Bytes, code: Bytes): Bytes {
    ascii + (if ascii == [] then [] else [DELIMITER]) + code
  }

  lemma {:induction false} DecodeSplits(ascii: Bytes, code: Bytes)
    requires DELIMITER !in code && forall i | 0 <= i < |ascii| :: ascii[i] < 128
    ensures Decode(Tail(ascii, code)) == DecodeDeltas(code, Decoder(INITIAL_N, 0, INITIAL_BIAS, ascii))
  {
    hide DecodeDeltas, LastDelimiter;
    var s := Tail(ascii, code);
    LastDelimiterSplits(ascii, code);
    if ascii == [] {
      assert s == code && s[..0] == ascii;
    } else {
      assert s == ascii + [DELIMITER] + code;
      assert s[..|ascii|] == ascii && s[|ascii| + 1..] == code;
    }
  }

  lemma {:induction false} AsciiIsSmall(cps: seq<nat>)
    ensures forall i | 0 <= i < |Ascii(cps)| :: Ascii(cps)[i] < 128
  {
    if cps != [] {
      AsciiIsSmall(cps[..|cps| - 1]);
    }
  }

  function Room(full: Bytes, room: nat): Bytes {
    if |full| <= room then full else full[..room]
  }

  /** `if (*d < de) *(*d)++ = c`: writes only while there is room. */
  function Emit(out: Bytes, room: nat, c: byte): Bytes {
    if |out| < room then out + [c] else out
  }

  lemma {:induction false} EmitRoom(full: Bytes, room: nat, c: byte)
    ensures Emit(Room(full, room), room, c) == Room(full + [c], room)
  {
    if |full| < room {
    } else if |full| == room {
      assert (full + [c])[..room] == full;
    } else {
      assert (full + [c])[..room] == full[..room];
    }
  }

  // ---- Digits and bias, as the code computes them ----

  /** The digit loop. */
  method EmitDelta(out0: Bytes, room: nat, delta: nat, bias: nat, ghost full0: Bytes) returns (out: Bytes)
    requires out0 == Room(full0, room) && delta < TWO32
    ensures out == Room(full0 + EncodeVar(delta, 36, bias), room)
  {
    out := out0;
    ghost var full := full0;
    var k: nat, q: nat := 36, delta;
    var t: nat := 1;
    while true
      invariant out == Room(full, room)
      invariant full + EncodeVar(q, k, bias) == full0 + EncodeVar(delta, 36, bias)
      decreases q
    {
      t := 1;
      if k > bias {
        t := k - bias;
      }
      if t > 26 {
        t := 26;
      }
      assert t == Threshold(k, bias);
      if q < t {
        break;
      }
      var x := q - t;
      var y := 36 - t;
      ghost var d := LowDigit(q, t);
      assert full + EncodeVar(q, k, bias) == full + [Letter(d)] + EncodeVar(HighPart(q, t), k + 36, bias);
      EmitRoom(full, room, Letter(d));
      DivBounds(x, y);
      q := x / y;
      t := t + x % y;
      out := Emit(out, room, Letter(t));
      full := full + [Letter(d)];
      k := k + 36;
    }
    EmitRoom(full, room, Letter(q));
    out := Emit(out, room, Letter(q));
  }

  /** d divided n times by 35. */
  function Shrunk(d: nat, n: nat): nat {
    if n == 0 then d else Shrunk(d, n - 1) / 35
  }

  /** Nothing overflows 32 bits before the scaling loop. */
  method Damp(delta0: nat, h: nat, first: bool) returns (delta: nat)
    requires delta0 < TWO32 && h > 0
    ensures delta < TWO32 && Adapt(delta0, h, first) == AdaptLoop(delta, 0)
    ensures var d := if first then delta0 / 700 else delta0 / 2; delta == d + d / h
  {
    hide AdaptLoop;
    delta := delta0 / 2;
    if first {
      delta := delta / 350;
    }
    DivBounds(delta, h);
    delta := delta + delta / h;
  }

  /** The new bias: the damped delta is divided by 35 until it is at most 455. times counts the divisions. */
  method AdaptBias(delta0: nat, h: nat, first: bool) returns (bias: nat, ghost damped: nat, ghost times: nat)
    requires delta0 < TWO32 && h > 0
    ensures bias == Adapt(delta0, h, first)
    ensures damped == if first then delta0 / 700 + delta0 / 700 / h else delta0 / 2 + delta0 / 2 / h
    ensures Shrunk(damped, times) <= 455 && forall i | 0 <= i < times :: Shrunk(damped, i) > 455
    ensures bias == 36 * times + 36 * Shrunk(damped, times) / (Shrunk(damped, times) + 38)
  {
    hide Adapt;
    var delta := Damp(delta0, h, first);
    damped := delta;
    bias, times := 0, 0;
    while delta > 35 * 26 / 2
      invariant AdaptLoop(delta, bias) == Adapt(delta0, h, first)
      invariant delta == Shrunk(damped, times) && bias == 36 * times
      invariant forall i | 0 <= i < times :: Shrunk(damped, i) > 455
    {
      delta := delta / 35;
      bias, times := bias + 36, times + 1;
    }
    bias := bias + 36 * delta / (delta + 38);
  }

  // ---- The state of the encoder against the decoder's ----

  /** In the middle of a scan for value n, at position j: the deltas emitted so far rebuild the code
      points placed so far, and delta counts the decoder states passed since the last insertion. */
  ghost predicate Scanning(cps: seq<nat>, n: nat, j: nat, deltas: seq<nat>, h: nat, delta: nat, bias: nat, first: bool)
    requires j <= |cps|
  {
    var st := After(deltas, Start(cps));
    && st.output == Select(cps, n, j, |cps|) && h == |st.output|
    && bias == st.bias && (first <==> st.i == 0)
    && INITIAL_N <= st.n <= n
    && st.i + delta == (n - st.n) * (h + 1) + |Select(cps, n, j, j)|
  }

  lemma {:induction false} ScanStarts(cps: seq<nat>)
    ensures Scanning(cps, INITIAL_N, 0, [], |Ascii(cps)|, 0, INITIAL_BIAS, true)
  {
    AsciiIsSelection(cps, |cps|);
    assert cps[..|cps|] == cps;
  }

  lemma {:induction false} SelectedBefore(cps: seq<nat>, n: nat, j: nat)
    requires j < |cps| && cps[j] != n
    ensures Select(cps, n, j + 1, |cps|) == Select(cps, n, j, |cps|)
    ensures |Select(cps, n, j + 1, j + 1)| == |Select(cps, n, j, j)| + (if cps[j] < n then 1 else 0)
  {
    SelectSame(cps, n, j, n, j + 1, |cps|);
    SelectSame(cps, n, j, n, j + 1, j);
  }

  lemma {:induction false} ScanPasses(cps: seq<nat>, n: nat, j: nat, deltas: seq<nat>, h: nat, delta: nat, bias: nat, first: bool)
    requires j < |cps| && cps[j] != n && Scanning(cps, n, j, deltas, h, delta, bias, first)
    ensures Scanning(cps, n, j + 1, deltas, h, if cps[j] < n then delta + 1 else delta, bias, first)
  {
    hide After, Select, Start;
    SelectedBefore(cps, n, j);
  }

  lemma {:induction false} AfterOneMore(deltas: seq<nat>, delta: nat, st: Decoder)
    ensures After(deltas + [delta], st) == Step(After(deltas, st), delta)
  {
    assert (deltas + [delta])[..|deltas|] == deltas;
  }

  lemma {:induction false} ScanInserts(cps: seq<nat>, n: nat, j: nat, deltas: seq<nat>, h: nat, delta: nat, bias: nat, first: bool)
    requires j < |cps| && cps[j] == n && Scanning(cps, n, j, deltas, h, delta, bias, first)
    ensures Scanning(cps, n, j + 1, deltas + [delta], h + 1, 0, Adapt(delta, h + 1, first), false)
  {
    hide After, Adapt, Step;
    var st := After(deltas, Start(cps));
    var c := |Select(cps, n, j, j)|;
    SelectInsert(cps, n, j, |cps|);
    StepInserts(st, delta, n, c);
    AfterOneMore(deltas, delta, Start(cps));
    SelectSame(cps, n, j, n, j + 1, j);
  }

  lemma {:induction false} Distribute(a: nat, b: nat, c: nat)
    ensures (a + b) * c == a * c + b * c && b * c >= 0
  {
  }

  /** The end of a scan is the start of the next one. */
  lemma {:induction false} ScanEnds(cps: seq<nat>, n: nat, deltas: seq<nat>, h: nat, delta: nat, bias: nat, first: bool)
    requires Scanning(cps, n, |cps|, deltas, h, delta, bias, first)
    ensures Scanning(cps, n + 1, 0, deltas, h, delta + 1, bias, first)
  {
    hide After, Start;
    SelectSame(cps, n, |cps|, n + 1, 0, |cps|);
    Distribute(n - After(deltas, Start(cps)).n, 1, h + 1);
  }

  /** Values that do not occur are skipped h + 1 states at a time. */
  lemma {:induction false} ScanJumps(cps: seq<nat>, n: nat, m: nat, deltas: seq<nat>, h: nat, delta: nat, bias: nat, first: bool)
    requires Scanning(cps, n, 0, deltas, h, delta, bias, first) && n <= m
    requires forall x | 0 <= x < |cps| :: cps[x] < n || m <= cps[x]
    ensures (m - n) * (h + 1) >= 0
    ensures Scanning(cps, m, 0, deltas, h, delta + (m - n) * (h + 1), bias, first)
  {
    hide After, Start;
    SelectSame(cps, n, 0, m, 0, |cps|);
    Distribute(n - After(deltas, Start(cps)).n, m - n, h + 1);
  }

  lemma {:induction false} MulBound(a: nat, b: nat, p: nat, q: nat)
    requires a <= p && b <= q
    ensures a * b <= p * q
  {
    assert a * b <= p * b;
    assert p * b <= p * q;
  }

  /** Unicode text short enough that no delta reaches 2^32. */
  predicate Short(cps: seq<nat>) {
    |cps| <= 3854 && forall c | c in cps :: c <= 0x10FFFF
  }

  lemma {:induction false} ShortDelta(cps: seq<nat>, n: nat, j: nat, deltas: seq<nat>, h: nat, delta: nat, bias: nat, first: bool)
    requires j <= |cps| <= 3854 && n <= 0x10FFFF && Scanning(cps, n, j, deltas, h, delta, bias, first)
    ensures delta < TWO32 - 1
  {
    SelectAll(cps, n, j, |cps|);
    SelectAll(cps, n, j, j);
    var st := After(deltas, Start(cps));
    MulBound(n - st.n, h + 1, 0x10FFFF - 128, 3855);
  }

  lemma {:induction false} AllPlaced(cps: seq<nat>, n: nat, j: nat, deltas: seq<nat>, h: nat, delta: nat, bias: nat, first: bool)
    requires j <= |cps| && Scanning(cps, n, j, deltas, h, delta, bias, first)
    ensures h <= |cps|
    ensures h == |cps| ==> After(deltas, Start(cps)).output == cps
    ensures h < |cps| ==> exists x :: 0 <= x < |cps| && !Placed(cps, n, j, x)
  {
    hide After, Select, Start;
    SelectAll(cps, n, j, |cps|);
    assert cps[..|cps|] == cps;
  }

  // ---- The method ----

  /** The first pass: how many basic code points, and whether any sequence was invalid. */
  method CountPass(cps: seq<CodePoint>) returns (ok: bool, h: nat, todo: nat)
    ensures ok <==> INVALID !in cps
    ensures ok ==> h == |Ascii(cps)| && todo == CountWide(cps)
  {
    h, todo := 0, 0;
    for i := 0 to |cps|
      invariant INVALID !in cps[..i]
      invariant h == |Ascii(cps[..i])| && todo == CountWide(cps[..i])
    {
      assert cps[..i + 1] == cps[..i] + [cps[i]];
      assert cps[..i + 1][..i] == cps[..i];
      if cps[i] < 128 {
        h := h + 1;
      } else if cps[i] == INVALID {
        return false, 0, 0;
      } else {
        todo := todo + 1;
      }
    }
    assert cps[..|cps|] == cps;
    ok := true;
  }

  /** The second pass: copies the basic code points, stopping after the last one. */
  method AsciiPass(cps: seq<CodePoint>, out0: Bytes, room: nat, h: nat, ghost full0: Bytes) returns (out: Bytes)
    requires out0 == Room(full0, room) && h == |Ascii(cps)|
    ensures out == Room(full0 + Ascii(cps), room)
  {
    out := out0;
    var x := 0;
    assert full0 + Ascii([]) == full0;
    for i := 0 to |cps|
      invariant x == |Ascii(cps[..i])| && (i == 0 || h == 0 || x < h || x == 0)
      invariant out == Room(full0 + Ascii(cps[..i]), room)
    {
      assert cps[..i + 1][..i] == cps[..i];
      if cps[i] > 127 {
        continue;
      }
      EmitRoom(full0 + Ascii(cps[..i]), room, cps[i]);
      assert full0 + Ascii(cps[..i]) + [cps[i]] == full0 + Ascii(cps[..i + 1]);
      out := Emit(out, room, cps[i]);
      x := x + 1;
      if x == h {
        AsciiPrefix(cps, i + 1);
        return;
      }
    }
    assert cps[..|cps|] == cps;
  }

  lemma {:induction false} AsciiPrefix(cps: seq<nat>, m: nat)
    requires m <= |cps|
    ensures |Ascii(cps[..m])| <= |Ascii(cps)|
    ensures |Ascii(cps[..m])| == |Ascii(cps)| ==> Ascii(cps[..m]) == Ascii(cps)
    decreases |cps|
  {
    if m < |cps| {
      var init := cps[..|cps| - 1];
      AsciiPrefix(init, m);
      assert init[..m] == cps[..m];
    } else {
      assert cps[..m] == cps;
    }
  }

  /** The smallest value at or above n that occurs. */
  method NextValue(cps: seq<CodePoint>, n: nat) returns (m: nat)
    requires INVALID !in cps && exists x :: 0 <= x < |cps| && n <= cps[x]
    ensures m in cps && n <= m < INVALID
    ensures forall x | 0 <= x < |cps| :: cps[x] < n || m <= cps[x]
  {
    m := INVALID;
    for i := 0 to |cps|
      invariant m == INVALID || (m in cps && n <= m)
      invariant m <= INVALID && forall x | 0 <= x < i :: cps[x] < n || m <= cps[x]
    {
      assert cps[i] in cps;
      if cps[i] >= n && cps[i] < m {
        m := cps[i];
      }
    }
  }

  /** What one scan for value n leaves behind; ok is false on 32-bit overflow. */
  datatype Scan = Scan(ok: bool, out: Bytes, delta: nat, h: nat, bias: nat, first: bool, todo: nat)

  method ScanPass(cps: seq<CodePoint>, n: nat, s0: Scan, room: nat, ghost deltas0: seq<nat>)
    returns (s: Scan, ghost deltas: seq<nat>)
    requires n < INVALID && n in cps && |cps| < TWO32 - 1
    requires s0.ok && s0.delta < TWO32 && Scanning(cps, n, 0, deltas0, s0.h, s0.delta, s0.bias, s0.first)
    requires s0.todo == |cps| - s0.h && s0.out == Room(Head(cps) + Encoded(deltas0, Start(cps)), room)
    ensures s.ok ==> s.delta < TWO32 - 1 && Scanning(cps, n, |cps|, deltas, s.h, s.delta, s.bias, s.first)
    ensures s.ok ==> s.todo == |cps| - s.h && s.todo < s0.todo
    ensures s.ok ==> s.out == Room(Head(cps) + Encoded(deltas, Start(cps)), room)
    ensures Short(cps) ==> s.ok
  {
    hide Scanning, Encoded, Head, Room, Start;
    var out, first := s0.out, s0.first;
    var delta: nat, h: nat, bias: nat, todo: nat := s0.delta, s0.h, s0.bias, s0.todo;
    deltas := deltas0;
    for j := 0 to |cps|
      invariant delta < TWO32 && Scanning(cps, n, j, deltas, h, delta, bias, first)
      invariant todo == |cps| - h && out == Room(Head(cps) + Encoded(deltas, Start(cps)), room)
      invariant if n in cps[..j] then delta <= j && todo < s0.todo else todo == s0.todo
    {
      var c := cps[j];
      assert cps[..j + 1] == cps[..j] + [c];
      if c != n {
        ScanPasses(cps, n, j, deltas, h, delta, bias, first);
      }
      if c < n {
        if delta + 1 == TWO32 {
          if Short(cps) {
            assert n in cps;
            ShortDelta(cps, n, j, deltas, h, delta, bias, first);
          }
          return Scan(false, out, delta, h, bias, first, todo), deltas;
        }
        delta := delta + 1;
      }
      if c == n {
        AllPlaced(cps, n, j, deltas, h, delta, bias, first);
        out, bias := InsertPoint(cps, out, room, n, j, deltas, h, delta, bias, first);
        deltas := deltas + [delta];
        delta, h, first, todo := 0, h + 1, false, todo - 1;
      }
    }
    assert cps[..|cps|] == cps;
    s := Scan(true, out, delta, h, bias, first, todo);
  }

  /** Emitting one delta and adapting the bias. */
  method InsertPoint(cps: seq<CodePoint>, out0: Bytes, room: nat, n: nat, j: nat, ghost deltas: seq<nat>,
                     h: nat, delta: nat, bias0: nat, first: bool) returns (out: Bytes, bias: nat)
    requires j < |cps| && cps[j] == n && delta < TWO32
    requires Scanning(cps, n, j, deltas, h, delta, bias0, first)
    requires out0 == Room(Head(cps) + Encoded(deltas, Start(cps)), room)
    ensures h < |cps| && Scanning(cps, n, j + 1, deltas + [delta], h + 1, 0, bias, false)
    ensures out == Room(Head(cps) + Encoded(deltas + [delta], Start(cps)), room)
  {
    hide After, EncodeVar, Adapt;
    ScanInserts(cps, n, j, deltas, h, delta, bias0, first);
    AllPlaced(cps, n, j + 1, deltas + [delta], h + 1, 0, Adapt(delta, h + 1, first), false);
    out := EmitDelta(out0, room, delta, bias0, Head(cps) + Encoded(deltas, Start(cps)));
    assert (deltas + [delta])[..|deltas|] == deltas;
    assert Head(cps) + Encoded(deltas + [delta], Start(cps))
        == Head(cps) + Encoded(deltas, Start(cps)) + EncodeVar(delta, 36, bias0);
    ghost var damped, times;
    bias, damped, times := AdaptBias(delta, h + 1, first);
  }

  /** All scans, until every code point is placed. */
  method EncodeWide(cps: seq<CodePoint>, s0: Scan, room: nat) returns (s: Scan, ghost deltas: seq<nat>)
    requires INVALID !in cps && |cps| < TWO32 - 1
    requires s0.ok && s0.delta < TWO32 && Scanning(cps, INITIAL_N, 0, [], s0.h, s0.delta, s0.bias, s0.first)
    requires s0.todo == |cps| - s0.h && s0.out == Room(Head(cps), room)
    ensures s.ok ==> After(deltas, Start(cps)).output == cps
    ensures s.ok ==> s.out == Room(Head(cps) + Encoded(deltas, Start(cps)), room)
    ensures Short(cps) ==> s.ok
  {
    hide Scanning, Head, Room, Start, After, Select;
    var n: nat := INITIAL_N;
    s := s0;
    deltas := [];
    assert Head(cps) + Encoded([], Start(cps)) == Head(cps);
    while s.todo > 0
      invariant s.ok && s.delta < TWO32 && n < TWO32
      invariant Scanning(cps, n, 0, deltas, s.h, s.delta, s.bias, s.first)
      invariant s.todo == |cps| - s.h && s.out == Room(Head(cps) + Encoded(deltas, Start(cps)), room)
      decreases s.todo
    {
      AllPlaced(cps, n, 0, deltas, s.h, s.delta, s.bias, s.first);
      var m := NextValue(cps, n);
      var x := m - n;
      var y := s.h + 1;
      ScanJumps(cps, n, m, deltas, s.h, s.delta, s.bias, s.first);
      var fits := Fits(x, y, s.delta);
      if !fits {
        if Short(cps) {
          ShortDelta(cps, m, 0, deltas, s.h, s.delta + x * y, s.bias, s.first);
        }
        return s.(ok := false), deltas;
      }
      s := s.(delta := s.delta + x * y);
      n := m;
      s, deltas := ScanPass(cps, n, s, room, deltas);
      if !s.ok {
        return;
      }
      ScanEnds(cps, n, deltas, s.h, s.delta, s.bias, s.first);
      s := s.(delta := s.delta + 1);
      n := n + 1;
    }
    AllPlaced(cps, n, 0, deltas, s.h, s.delta, s.bias, s.first);
  }

  /** `x > ~delta / y`: whether delta + x * y stays below 2^32. */
  method Fits(x: nat, y: nat, delta: nat) returns (fits: bool)
    requires y > 0 && delta < TWO32
    ensures x * y >= 0 && (fits <==> delta + x * y < TWO32)
  {
    var spare := TWO32 - 1 - delta;
    fits := x <= spare / y;
    DivBounds(spare, y);
    if fits {
      MulBound(x, y, spare / y, y);
    } else {
      MulBound(spare / y + 1, y, x, y);
      Distribute(spare / y, 1, y);
    }
  }

  lemma {:induction false} StartAtLast(cps: seq<nat>)
    ensures AtLast(Start(cps))
  {
    AsciiIsSmall(cps);
  }

  /** Whatever deltas rebuild the label, full is what they encode to. */
  ghost predicate OnlyEncoding(cps: seq<nat>, full: Bytes) {
    forall ds | After(ds, Start(cps)).output == cps :: full == Head(cps) + Encoded(ds, Start(cps))
  }

  lemma {:induction false} EncodingIsOnly(cps: seq<nat>, deltas: seq<nat>)
    requires After(deltas, Start(cps)).output == cps
    ensures OnlyEncoding(cps, Head(cps) + Encoded(deltas, Start(cps)))
  {
    hide After, Encoded, Start, Head, AtLast;
    forall ds | After(ds, Start(cps)).output == cps
      ensures ds == deltas
    {
      StartAtLast(cps);
      DeltasUnique(ds, deltas, Start(cps));
    }
  }

  /**
   * The whole function. The output is always the part of the full encoding that fits. A label with
   * a wide code point is encoded so that the decoder of RFC 3492 gives it back, and there is no other
   * encoding of it; one without is copied. Only a label that is too long can overflow.
   */
  method ToAsciiLabel(cps: seq<CodePoint>, room: nat) returns (r: Status, out: Bytes, ghost full: Bytes)
    requires |cps| < TWO32 - 1
    ensures r.Invalid? <==> INVALID in cps
    ensures r.Length? <==> INVALID !in cps && Ascii(cps) == cps
    ensures r.Length? ==> r.h == |cps| && full == cps
    ensures r.Done? ==> [120, 110, 45, 45] <= full && Decode(full[4..]) == Some(cps) && OnlyEncoding(cps, full)
    ensures r.Length? || r.Done? ==> out == if |full| <= room then full else full[..room]
    ensures Short(cps) ==> !r.TooBig?
  {
    out, full := [], [];
    var ok, h, todo := CountPass(cps);
    if !ok {
      return Invalid, out, full;
    }
    AsciiIsSelection(cps, |cps|);
    assert cps[..|cps|] == cps;
    AsciiOfAscii(cps);
    if todo > 0 {
      out := EmitPrefix(room);
      full := PREFIX;
    }
    out := AsciiPass(cps, out, room, h, full);
    full := full + Ascii(cps);
    if todo == 0 {
      return Length(h), out, full;
    }
    if h > 0 {
      EmitRoom(full, room, DELIMITER);
      out := Emit(out, room, DELIMITER);
      full := full + [DELIMITER];
    }
    assert full == Head(cps);
    ScanStarts(cps);
    ghost var deltas;
    var s;
    s, deltas := EncodeWide(cps, Scan(true, out, 0, h, INITIAL_BIAS, true, todo), room);
    if !s.ok {
      return TooBig, s.out, full;
    }
    LabelDecodes(cps, deltas);
    EncodingIsOnly(cps, deltas);
    full := Head(cps) + Encoded(deltas, Start(cps));
    r, out := Done, s.out;
  }

  method EmitPrefix(room: nat) returns (out: Bytes)
    ensures out == Room(PREFIX, room)
  {
    out := [];
    EmitRoom([], room, 120);
    out := Emit(out, room, 120);
    EmitRoom([120], room, 110);
    out := Emit(out, room, 110);
    EmitRoom([120, 110], room, DELIMITER);
    out := Emit(out, room, DELIMITER);
    EmitRoom([120, 110, DELIMITER], room, DELIMITER);
    out := Emit(out, room, DELIMITER);
  }

  lemma {:induction false} AsciiOfAscii(cps: seq<nat>)
    ensures CountWide(cps) == 0 <==> Ascii(cps) == cps
  {
    AsciiIsSelection(cps, |cps|);
    assert cps[..|cps|] == cps;
    if CountWide(cps) == 0 {
      SelectAll(cps, 128, 0, |cps|);
    }
  }
}
