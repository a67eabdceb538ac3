/**
  * The shifts and masks of putc_utf8 on an unsigned long, against the encoder on numbers. Words are
  * read as numbers bit by bit; the bits of words and arithmetic on numbers are kept in separate lemmas.
  */
module Utf8Bits {
  import Utf8

  type Word = bv64

  /** The shift-and-mask expressions the C code evaluates, before they are cast to bytes. */
  function PutcWords(cp: Word): seq<Word> {
    if cp <= 0x7F then
      [cp]
    else if cp <= 0x7FF then
      [Lead2(cp >> 6), Continue(cp)]
    else if cp <= 0xFFFF then
      [Lead3(cp >> 12), Continue(cp >> 6), Continue(cp)]
    else if cp <= 0x10FFFF then
      [Lead4(cp >> 18), Continue(cp >> 12), Continue(cp >> 6), Continue(cp)]
    else
      []
  }

  function Lead2(w: Word): Word {
    (6 << 5) | w
  }

  function Lead3(w: Word): Word {
    (14 << 4) | w
  }

  function Lead4(w: Word): Word {
    (30 << 3) | w
  }

  function Continue(w: Word): Word {
    (2 << 6) | (w & 0x3F)
  }

  // ---- words as numbers ------------------------------------------------------------------

  function Shr(w: Word): Word {
    w >> 1
  }

  predicate Odd(w: Word) {
    w & 1 == 1
  }

  /** The number of a word, whose digits in base 2 are the bits. */
  function Number(w: Word): (n: nat)
    ensures n == 0 <==> w == 0
    decreases w
  {
    if w == 0 then 0
    else
      Nonzero(w);
      2 * Number(Shr(w)) + if Odd(w) then 1 else 0
  }

  lemma Half(w: Word)
    ensures Number(w) == 2 * Number(Shr(w)) + if Odd(w) then 1 else 0
  {
    if w == 0 {
      Zero();
    }
  }

  lemma Zero()
    ensures Shr(0) == 0 && !Odd(0)
  {
  }

  lemma Nonzero(w: Word)
    requires w != 0
    ensures Shr(w) < w && (Shr(w) == 0 ==> Odd(w))
  {
  }

  function Drop(w: Word, k: nat): Word
    decreases k
  {
    if k == 0 then w else Drop(Shr(w), k - 1)
  }

  function Low(w: Word, k: nat): nat
    decreases k
  {
    if k == 0 then 0 else 2 * Low(Shr(w), k - 1) + if Odd(w) then 1 else 0
  }

  /** `n` doubled `k` times. */
  function Doubled(n: nat, k: nat): (r: nat)
    ensures n > 0 ==> r > 0
  {
    if k == 0 then n else 2 * Doubled(n, k - 1)
  }

  /** A number is its word without the last `k` bits, and these bits. */
  lemma {:induction false} Split(w: Word, k: nat)
    ensures Number(w) == Doubled(Number(Drop(w, k)), k) + Low(w, k) && Low(w, k) < Doubled(1, k)
    decreases k
  {
    hide Shr, Odd, Number;
    if k > 0 {
      Half(w);
      Split(Shr(w), k - 1);
    }
  }

  lemma DoubledIs(n: nat)
    ensures Doubled(n, 1) == 2 * n && Doubled(n, 2) == 4 * n && Doubled(n, 3) == 8 * n
    ensures Doubled(n, 4) == 16 * n && Doubled(n, 5) == 32 * n && Doubled(n, 6) == 64 * n
  {
    assert Doubled(n, 3) == 2 * Doubled(n, 2) && Doubled(n, 4) == 2 * Doubled(n, 3);
    assert Doubled(n, 5) == 2 * Doubled(n, 4) && Doubled(n, 6) == 2 * Doubled(n, 5);
  }

  /** The same last bits make the same low part. */
  ghost predicate Agree(v: Word, w: Word, k: nat)
    decreases k
  {
    k > 0 ==> Odd(v) == Odd(w) && Agree(Shr(v), Shr(w), k - 1)
  }

  lemma {:induction false} AgreeLow(v: Word, w: Word, k: nat)
    requires Agree(v, w, k)
    ensures Low(v, k) == Low(w, k)
    decreases k
  {
    hide Shr, Odd;
    if k > 0 {
      AgreeLow(Shr(v), Shr(w), k - 1);
    }
  }

  // ---- bits only -------------------------------------------------------------------------

  lemma ShrShifts(w: Word)
    ensures Shr(w) == w >> 1 && Shr(Shr(w)) == w >> 2 && Shr(Shr(Shr(w))) == w >> 3 && Shr(Shr(Shr(Shr(w)))) == w >> 4
    ensures Shr(Shr(Shr(Shr(Shr(w))))) == w >> 5 && Shr(Shr(Shr(Shr(Shr(Shr(w)))))) == w >> 6
  {
  }

  lemma DropUnrolled(w: Word)
    ensures Drop(w, 1) == Shr(w) && Drop(w, 2) == Shr(Shr(w)) && Drop(w, 3) == Shr(Shr(Shr(w)))
    ensures Drop(w, 4) == Shr(Shr(Shr(Shr(w)))) && Drop(w, 5) == Shr(Shr(Shr(Shr(Shr(w)))))
    ensures Drop(w, 6) == Shr(Shr(Shr(Shr(Shr(Shr(w))))))
  {
    hide Shr;
    assert Drop(w, 6) == Drop(Shr(w), 5) == Drop(Shr(Shr(w)), 4) == Drop(Shr(Shr(Shr(w))), 3);
    assert Drop(w, 5) == Drop(Shr(w), 4) == Drop(Shr(Shr(w)), 3);
    assert Drop(w, 4) == Drop(Shr(w), 3);
  }

  lemma DropIsShift(w: Word)
    ensures Drop(w, 1) == w >> 1 && Drop(w, 2) == w >> 2 && Drop(w, 3) == w >> 3
    ensures Drop(w, 4) == w >> 4 && Drop(w, 5) == w >> 5 && Drop(w, 6) == w >> 6
  {
    hide Shr, Drop;
    ShrShifts(w);
    DropUnrolled(w);
  }

  lemma ContinueBits(w: Word)
    ensures Continue(w) >> 6 == 2 && Same(Continue(w), w, 6)
  {
  }

  predicate Same(v: Word, w: Word, k: nat) {
    v & Mask(k) == w & Mask(k)
  }

  function Mask(k: nat): Word {
    if k == 6 then 0x3F else if k == 5 then 0x1F else if k == 4 then 0xF else if k == 3 then 7 else if k == 2 then 3
    else if k == 1 then 1 else 0
  }

  lemma SameStep(v: Word, w: Word, k: nat)
    requires 0 < k <= 6 && Same(v, w, k)
    ensures Odd(v) == Odd(w) && Same(Shr(v), Shr(w), k - 1)
  {
  }

  lemma {:induction false} SameAgree(v: Word, w: Word, k: nat)
    requires k <= 6 && Same(v, w, k)
    ensures Agree(v, w, k)
    decreases k
  {
    hide Shr, Odd, Same;
    if k > 0 {
      SameStep(v, w, k);
      SameAgree(Shr(v), Shr(w), k - 1);
    }
  }

  lemma LeadBits(w: Word)
    ensures Drop(w, 5) == 0 ==> Drop(Lead2(w), 5) == 6 && Same(Lead2(w), w, 5)
    ensures Drop(w, 4) == 0 ==> Drop(Lead3(w), 4) == 14 && Same(Lead3(w), w, 4)
    ensures Drop(w, 3) == 0 ==> Drop(Lead4(w), 3) == 30 && Same(Lead4(w), w, 3)
  {
    hide Drop;
    DropIsShift(w);
    DropIsShift(Lead2(w));
    DropIsShift(Lead3(w));
    DropIsShift(Lead4(w));
  }

  function Six(w: Word): Word {
    w >> 6
  }

  predicate AtMost(w: Word, limit: Word) {
    w <= limit
  }

  lemma DropSix(w: Word)
    ensures Drop(w, 6) == Six(w)
  {
    hide Drop;
    DropIsShift(w);
  }

  lemma Limits(cp: Word)
    ensures AtMost(cp, 0x7F) <==> Drop(Six(cp), 1) == 0
    ensures AtMost(cp, 0x7FF) <==> Drop(Six(cp), 5) == 0
    ensures AtMost(cp, 0xFFFF) <==> Drop(Six(Six(cp)), 4) == 0
    ensures AtMost(cp, 0x10FFFF) <==> Drop(Six(Six(cp)), 4) == 16 || Drop(Six(Six(Six(cp))), 2) == 0
  {
    hide Drop, Six, AtMost;
    DropIsShift(Six(cp));
    DropIsShift(Six(Six(cp)));
    DropIsShift(Six(Six(Six(cp))));
    LowLimits(cp);
    HighLimits(cp);
  }

  lemma LowLimits(cp: Word)
    ensures AtMost(cp, 0x7F) <==> Six(cp) >> 1 == 0
    ensures AtMost(cp, 0x7FF) <==> Six(cp) >> 5 == 0
  {
  }

  lemma HighLimits(cp: Word)
    ensures AtMost(cp, 0xFFFF) <==> Six(Six(cp)) >> 4 == 0
    ensures AtMost(cp, 0x10FFFF) <==> Six(Six(cp)) >> 4 == 16 || Six(Six(Six(cp))) >> 2 == 0
  {
  }

  lemma Sixes(cp: Word)
    ensures cp >> 6 == Six(cp) && cp >> 12 == Six(Six(cp)) && cp >> 18 == Six(Six(Six(cp)))
  {
  }

  lemma Forms(cp: Word)
    ensures
      var q := Six(cp);
      var q2 := Six(q);
      var q3 := Six(q2);
      PutcWords(cp) ==
        if AtMost(cp, 0x7F) then [cp]
        else if AtMost(cp, 0x7FF) then [Lead2(q), Continue(cp)]
        else if AtMost(cp, 0xFFFF) then [Lead3(q2), Continue(q), Continue(cp)]
        else if AtMost(cp, 0x10FFFF) then [Lead4(q3), Continue(q2), Continue(q), Continue(cp)]
        else []
  {
    hide Lead2, Lead3, Lead4, Continue, Six;
    Sixes(cp);
  }

  lemma Halved(v: Word, w: Word)
    requires Shr(v) == Shr(w) && Odd(v) == Odd(w)
    ensures v == w
  {
  }

  // ---- numbers only ----------------------------------------------------------------------

  function Div64(n: nat): nat {
    n / 64
  }

  function Mod64(n: nat): nat {
    n % 64
  }

  lemma {:induction false} DoubledTimes(n: nat, k: nat)
    ensures Doubled(n, k) == n * Doubled(1, k)
  {
    if k > 0 {
      DoubledTimes(n, k - 1);
    }
  }

  lemma DivMod(n: nat, p: nat, q: nat, r: nat)
    requires n == q * p + r && r < p
    ensures p > 0 && n / p == q && n % p == r
  {
    var x: int := n / p - q;
    assert x * p == r - n % p;
    assert x >= 1 ==> x * p >= p;
    assert x <= -1 ==> x * p <= 0 - p;
  }

  /** Dropping bits divides, and the remainder is the low part. */
  lemma DropDivides(w: Word, k: nat)
    ensures Number(Drop(w, k)) == Number(w) / Doubled(1, k) && Low(w, k) == Number(w) % Doubled(1, k)
  {
    hide Number, Drop, Low, Doubled;
    Split(w, k);
    DoubledTimes(Number(Drop(w, k)), k);
    DivMod(Number(w), Doubled(1, k), Number(Drop(w, k)), Low(w, k));
  }

  /** A word that agrees with another one in its last bits and has given bits before them. */
  lemma Composed(v: Word, w: Word, k: nat)
    requires 0 < k <= 6 && Same(v, w, k)
    ensures Number(v) == Doubled(Number(Drop(v, k)), k) + Number(w) % Doubled(1, k)
  {
    hide Number, Drop, Low, Same, Agree, Doubled;
    SameAgree(v, w, k);
    AgreeLow(v, w, k);
    Split(v, k);
    DropDivides(w, k);
  }

  lemma SmallNumbers()
    ensures Number(1) == 1 && Number(2) == 2 && Number(6) == 6
    ensures Number(14) == 14 && Number(30) == 30 && Number(16) == 16
  {
    assert Number(3) == 3 && Number(7) == 7 && Number(15) == 15 && Number(4) == 4 && Number(8) == 8;
  }

  lemma ContinueNumber(w: Word)
    ensures Number(Continue(w)) == 0x80 + Mod64(Number(w))
  {
    hide Number, Continue, Same, Drop;
    ContinueBits(w);
    DropIsShift(Continue(w));
    Composed(Continue(w), w, 6);
    SmallNumbers();
    DoubledIs(1);
    DoubledIs(2);
  }

  /** A lead byte: a word of `k` bits behind given bits. */
  lemma LeadNumber(v: Word, w: Word, k: nat)
    requires 0 < k <= 6 && Same(v, w, k) && Drop(w, k) == 0
    ensures Number(v) == Doubled(Number(Drop(v, k)), k) + Number(w) && Number(w) < Doubled(1, k)
  {
    hide Same, Drop, Doubled;
    Composed(v, w, k);
    Split(w, k);
    DoubledTimes(0, k);
    DropDivides(w, k);
  }

  lemma LeadNumbers(w: Word)
    ensures Number(w) < 32 ==> Number(Lead2(w)) == 0xC0 + Number(w)
    ensures Number(w) < 16 ==> Number(Lead3(w)) == 0xE0 + Number(w)
    ensures Number(w) < 8 ==> Number(Lead4(w)) == 0xF0 + Number(w)
  {
    hide Number, Lead2, Lead3, Lead4, Same, Drop, Doubled;
    LeadBits(w);
    SmallNumbers();
    DoubledIs(1);
    DoubledIs(6);
    DoubledIs(14);
    DoubledIs(30);
    FitsIn(w, 5);
    FitsIn(w, 4);
    FitsIn(w, 3);
    if Drop(w, 5) == 0 {
      LeadNumber(Lead2(w), w, 5);
    }
    if Drop(w, 4) == 0 {
      LeadNumber(Lead3(w), w, 4);
    }
    if Drop(w, 3) == 0 {
      LeadNumber(Lead4(w), w, 3);
    }
  }

  /** Different words have different numbers; `n` is the number of both. */
  lemma {:induction false} NumberInjective(v: Word, w: Word, n: nat)
    requires Number(v) == Number(w) == n
    ensures v == w
    decreases n
  {
    hide Number, Shr, Odd;
    if n > 0 {
      Half(v);
      Half(w);
      NumberInjective(Shr(v), Shr(w), n / 2);
      Halved(v, w);
    }
  }

  lemma Quotient(w: Word)
    ensures Number(Six(w)) == Div64(Number(w))
  {
    hide Number, Drop, Low, Doubled, Six;
    DropSix(w);
    DoubledIs(1);
    DropDivides(w, 6);
  }

  lemma FitsIn(w: Word, k: nat)
    ensures Drop(w, k) == 0 <==> Number(w) < Doubled(1, k)
  {
    hide Drop, Low, Doubled;
    Split(w, k);
    DoubledTimes(Number(Drop(w, k)), k);
    Beyond(Number(Drop(w, k)), Doubled(1, k), Low(w, k));
  }

  lemma Beyond(n: nat, p: nat, low: nat)
    requires low < p
    ensures n * p + low < p <==> n == 0
  {
    assert n >= 1 ==> n * p >= p;
  }

  lemma IsSixteen(w: Word)
    ensures w == 16 <==> Number(w) == 16
  {
    hide Number;
    SmallNumbers();
    if Number(w) == 16 {
      NumberInjective(w, 16, 16);
    }
  }

  lemma NumberLimits(n: nat)
    ensures n <= 0x7F <==> Div64(n) < 2
    ensures n <= 0x7FF <==> Div64(n) < 32
    ensures n <= 0xFFFF <==> Div64(Div64(n)) < 16
    ensures n <= 0x10FFFF <==> Div64(Div64(n)) / 16 == 16 || Div64(Div64(Div64(n))) < 4
  {
  }

  lemma Thresholds(cp: Word)
    ensures AtMost(cp, 0x7F) <==> Number(cp) <= 0x7F
    ensures AtMost(cp, 0x7FF) <==> Number(cp) <= 0x7FF
    ensures AtMost(cp, 0xFFFF) <==> Number(cp) <= 0xFFFF
    ensures AtMost(cp, 0x10FFFF) <==> Number(cp) <= 0x10FFFF
  {
    hide Number, Six, Drop, AtMost, Low, Doubled, Div64;
    var q := Six(cp);
    var q2 := Six(q);
    var q3 := Six(q2);
    Limits(cp);
    Quotient(cp);
    Quotient(q);
    Quotient(q2);
    NumberLimits(Number(cp));
    DoubledIs(1);
    FitsIn(q, 1);
    FitsIn(q, 5);
    FitsIn(q2, 4);
    FitsIn(q3, 2);
    DropDivides(q2, 4);
    IsSixteen(Drop(q2, 4));
  }

  /** The encoder in terms of repeated division. */
  lemma EncodeForms(n: nat)
    ensures
      var q := Div64(n);
      var q2 := Div64(q);
      var q3 := Div64(q2);
      if n <= 0x7F then Codes(Utf8.Encode(n)) == [n]
      else if n <= 0x7FF then q < 32 && Codes(Utf8.Encode(n)) == [0xC0 + q, 0x80 + Mod64(n)]
      else if n <= 0xFFFF then q2 < 16 && Codes(Utf8.Encode(n)) == [0xE0 + q2, 0x80 + Mod64(q), 0x80 + Mod64(n)]
      else if n <= 0x10FFFF then
        q3 < 8 && Codes(Utf8.Encode(n)) == [0xF0 + q3, 0x80 + Mod64(q2), 0x80 + Mod64(q), 0x80 + Mod64(n)]
      else Codes(Utf8.Encode(n)) == []
  {
    Utf8.InSteps(n);
  }

  function Codes(s: string): seq<nat> {
    seq(|s|, i requires 0 <= i < |s| => s[i] as nat)
  }

  function Numbers(words: seq<Word>): seq<nat> {
    seq(|words|, i requires 0 <= i < |words| => Number(words[i]))
  }

  lemma NumbersOf(a: Word, b: Word, c: Word, d: Word)
    ensures Numbers([]) == [] && Numbers([a]) == [Number(a)] && Numbers([a, b]) == [Number(a), Number(b)]
    ensures Numbers([a, b, c]) == [Number(a), Number(b), Number(c)]
    ensures Numbers([a, b, c, d]) == [Number(a), Number(b), Number(c), Number(d)]
  {
    hide Number;
  }

  /** On every word, the C expressions are the bytes that the encoder on numbers gives for its number. */
  lemma PutcWordsAreEncode(cp: Word)
    ensures Numbers(PutcWords(cp)) == Codes(Utf8.Encode(Number(cp)))
  {
    hide Number, Lead2, Lead3, Lead4, Continue, Six, AtMost, PutcWords, Utf8.Encode, Codes, Numbers, Div64, Mod64;
    var q := Six(cp);
    var q2 := Six(q);
    var q3 := Six(q2);
    var n := Number(cp);
    Forms(cp);
    Thresholds(cp);
    Quotient(cp);
    Quotient(q);
    Quotient(q2);
    EncodeForms(n);
    ContinueNumber(cp);
    ContinueNumber(q);
    ContinueNumber(q2);
    if n <= 0x7F {
      NumbersOf(cp, cp, cp, cp);
    } else if n <= 0x7FF {
      LeadNumbers(q);
      NumbersOf(Lead2(q), Continue(cp), cp, cp);
    } else if n <= 0xFFFF {
      LeadNumbers(q2);
      NumbersOf(Lead3(q2), Continue(q), Continue(cp), cp);
    } else {
      LeadNumbers(q3);
      NumbersOf(Lead4(q3), Continue(q2), Continue(q), Continue(cp));
    }
  }
}
