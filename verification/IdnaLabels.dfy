/** Labels whose encodings are known: the digits, the starting values and the bias adaptation are those of RFC 3492. */
module IdnaLabels {
  import opened Basics
  import opened Punycode
  import opened Idna

  /** deltas rebuild cps, and text is the label they encode to. */
  ghost predicate EncodesTo(cps: seq<nat>, deltas: seq<nat>, text: Bytes) {
    After(deltas, Start(cps)).output == cps && Head(cps) + Encoded(deltas, Start(cps)) == text
  }

  lemma {:induction false} OnlyLabel(cps: seq<nat>, deltas: seq<nat>, text: Bytes, full: Bytes)
    requires EncodesTo(cps, deltas, text) && OnlyEncoding(cps, full)
    ensures full == text
  {
    hide After, Encoded, Start, Head;
  }

  lemma {:induction false} AfterNone(st: Decoder)
    ensures After([], st) == st && Encoded([], st) == []
  {
  }

  lemma {:induction false} OneMoreDelta(deltas: seq<nat>, delta: nat, st: Decoder)
    ensures After(deltas + [delta], st) == Step(After(deltas, st), delta)
    ensures Encoded(deltas + [delta], st) == Encoded(deltas, st) + EncodeVar(delta, 36, After(deltas, st).bias)
  {
    hide Step, EncodeVar;
    assert (deltas + [delta])[..|deltas|] == deltas;
  }

  lemma {:induction false} BasicOf(cps: seq<nat>, c: nat)
    ensures Ascii([]) == []
    ensures Ascii(cps + [c]) == Ascii(cps) + if c < 128 then [c] else []
  {
    assert (cps + [c])[..|cps|] == cps;
  }

  /** U+65E5 U+672C is xn--wgv71a. */
  lemma {:induction false} Nihon(full: Bytes)
    requires OnlyEncoding([26085, 26412], full)
    ensures full == [120, 110, 45, 45, 119, 103, 118, 55, 49, 97]
  {
    hide After, Encoded, Ascii, OnlyEncoding, Step, EncodeVar;
    var cps: seq<nat> := [26085, 26412];
    var ds: seq<nat> := [25957, 654];
    NihonAscii();
    AfterNone(Start(cps));
    OneMoreDelta([], 25957, Start(cps));
    assert [] + [25957] == [25957];
    OneMoreDelta([25957], 654, Start(cps));
    assert [25957] + [654] == [25957, 654];
    NihonSteps();
    NihonCodes();
    assert Head(cps) + Encoded(ds, Start(cps)) == [120, 110, 45, 45, 119, 103, 118, 55, 49, 97];
    OnlyLabel(cps, ds, [120, 110, 45, 45, 119, 103, 118, 55, 49, 97], full);
  }

  lemma {:induction false} NihonAscii()
    ensures Ascii([26085, 26412]) == []
  {
    hide Ascii;
    BasicOf([], 26085);
    assert [] + [26085] == [26085];
    BasicOf([26085], 26412);
    assert [26085] + [26412] == [26085, 26412];
  }

  lemma {:induction false} NihonSteps()
    ensures Step(Decoder(128, 0, 72, []), 25957)
         == Decoder(26085, 1, 23, [26085])
    ensures Step(Decoder(26085, 1, 23, [26085]), 654)
         == Decoder(26412, 2, 45, [26085, 26412])
  {
    assert InsertAt([], 0, 26085) == [26085];
    assert InsertAt([26085], 1, 26412) == [26085, 26412];
    assert AdaptLoop(490, 0) == AdaptLoop(14, 36);
  }

  lemma {:induction false} NihonCodes()
    ensures EncodeVar(25957, 36, 72) == [119, 103, 118]
    ensures EncodeVar(654, 36, 23) == [55, 49, 97]
  {
    assert EncodeVar(21, 108, 72) == [118];
    assert EncodeVar(741, 72, 72) == [103, 118];
    assert EncodeVar(0, 108, 23) == [97];
    assert EncodeVar(27, 72, 23) == [49, 97];
  }

  /** b, U+00FC, cher is xn--bcher-kva. */
  lemma {:induction false} Buecher(full: Bytes)
    requires OnlyEncoding([98, 252, 99, 104, 101, 114], full)
    ensures full == [120, 110, 45, 45, 98, 99, 104, 101, 114, 45, 107, 118, 97]
  {
    hide After, Encoded, Ascii, OnlyEncoding, Step, EncodeVar;
    var cps: seq<nat> := [98, 252, 99, 104, 101, 114];
    var ds: seq<nat> := [745];
    BuecherAscii();
    AfterNone(Start(cps));
    OneMoreDelta([], 745, Start(cps));
    assert [] + [745] == [745];
    BuecherSteps();
    BuecherCodes();
    assert Head(cps) + Encoded(ds, Start(cps)) == [120, 110, 45, 45, 98, 99, 104, 101, 114, 45, 107, 118, 97];
    OnlyLabel(cps, ds, [120, 110, 45, 45, 98, 99, 104, 101, 114, 45, 107, 118, 97], full);
  }

  lemma {:induction false} BuecherAscii()
    ensures Ascii([98, 252, 99, 104, 101, 114]) == [98, 99, 104, 101, 114]
  {
    hide Ascii;
    BasicOf([], 98);
    assert [] + [98] == [98];
    BasicOf([98], 252);
    assert [98] + [252] == [98, 252];
    BasicOf([98, 252], 99);
    assert [98, 252] + [99] == [98, 252, 99];
    BasicOf([98, 252, 99], 104);
    assert [98, 252, 99] + [104] == [98, 252, 99, 104];
    BasicOf([98, 252, 99, 104], 101);
    assert [98, 252, 99, 104] + [101] == [98, 252, 99, 104, 101];
    BasicOf([98, 252, 99, 104, 101], 114);
    assert [98, 252, 99, 104, 101] + [114] == [98, 252, 99, 104, 101, 114];
  }

  lemma {:induction false} BuecherSteps()
    ensures Step(Decoder(128, 0, 72, [98, 99, 104, 101, 114]), 745)
         == Decoder(252, 2, 0, [98, 252, 99, 104, 101, 114])
  {
    assert InsertAt([98, 99, 104, 101, 114], 1, 252) == [98, 252, 99, 104, 101, 114];
  }

  lemma {:induction false} BuecherCodes()
    ensures EncodeVar(745, 36, 72) == [107, 118, 97]
  {
    assert EncodeVar(0, 108, 72) == [97];
    assert EncodeVar(21, 72, 72) == [118, 97];
  }
}
