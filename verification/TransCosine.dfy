/** The cosine law of the stored matrices: every coefficient of every size is one of the 32 numbers
    of a single row, found by folding the angle of its row and column. */
module TransCosine {
  import opened Common
  import opened TransTable

  /** g_ai2_ihevc_trans_32_transpose: the first quarter of a cosine, scaled. */
  function FirstQuarter(m: nat): int
    requires m < 32
  {
    if m < 16 then FirstEighth(m) else SecondEighth(m)
  }

  function FirstEighth(m: nat): int
    requires m < 16
  {
    match m
    case 0 => 64
    case 1 => 90
    case 2 => 90
    case 3 => 90
    case 4 => 89
    case 5 => 88
    case 6 => 87
    case 7 => 85
    case 8 => 83
    case 9 => 82
    case 10 => 80
    case 11 => 78
    case 12 => 75
    case 13 => 73
    case 14 => 70
    case _ => 67
  }

  function SecondEighth(m: nat): int
    requires 16 <= m < 32
  {
    match m
    case 16 => 64
    case 17 => 61
    case 18 => 57
    case 19 => 54
    case 20 => 50
    case 21 => 46
    case 22 => 43
    case 23 => 38
    case 24 => 36
    case 25 => 31
    case 26 => 25
    case 27 => 22
    case 28 => 18
    case 29 => 13
    case 30 => 9
    case _ => 4
  }

  /** The scaled cosine of m 128ths of a turn, folded to the first quarter. */
  function Cosine(m: nat): int {
    var f := if m > 64 then 128 - m else m;
    if 0 <= f < 32 then FirstQuarter(f) else if 32 < f <= 64 then -FirstQuarter(64 - f) else 0
  }

  lemma CosineEven(m: nat, o: nat)
    requires m < 128 && o < 128 && (m + o == 128 || m + o == 0)
    ensures Cosine(o) == Cosine(m)
  {
  }

  lemma CosineHalfTurn(m: nat, o: nat)
    requires m < 128 && o < 128 && (m + o == 64 || m + o == 192)
    ensures Cosine(o) == -Cosine(m)
  {
  }

  /** The angle at column k of a row whose first angle is u. */
  function Angle(u: nat, k: nat): (m: nat)
    ensures m < 128
  {
    u * (2 * k + 1) % 128
  }

  /** u for row r of the n-point matrix. */
  function Base(n: nat, r: nat): (u: nat)
    requires IsSize(n) && r < n
    ensures u < 32
  {
    if n == 4 then 8 * r else if n == 8 then 4 * r else if n == 16 then 2 * r else r
  }

  // Rows, by walking along the angles.

  /** How the angle goes on from m. */
  function Ahead(): (nat, nat) -> nat {
    (m: nat, step: nat) => if m + step < 128 then m + step else m + step - 128
  }

  lemma ModAhead(a: nat, step: nat)
    requires step < 128
    ensures (a + step) % 128 == Ahead()(a % 128, step)
  {
  }

  lemma NextOdd(u: nat, k: nat)
    ensures u * (2 * (k + 1) + 1) == u * (2 * k + 1) + 2 * u
  {
  }

  lemma AngleStep(u: nat, k: nat)
    requires u < 32
    ensures Angle(u, k + 1) == Ahead()(Angle(u, k), 2 * u)
  {
    NextOdd(u, k);
    ModAhead(u * (2 * k + 1), 2 * u);
  }

  /** The cosines of the first h of 16 angles. */
  function Cosines(h: nat, m0: nat, m1: nat, m2: nat, m3: nat, m4: nat, m5: nat, m6: nat, m7: nat, m8: nat,
                   m9: nat, m10: nat, m11: nat, m12: nat, m13: nat, m14: nat, m15: nat): (s: seq<int>)
    requires h == 2 || h == 4 || h == 8 || h == 16
    ensures |s| == h
  {
    if h == 2 then [Cosine(m0), Cosine(m1)]
    else if h == 4 then [Cosine(m0), Cosine(m1), Cosine(m2), Cosine(m3)]
    else if h == 8 then
      [Cosine(m0), Cosine(m1), Cosine(m2), Cosine(m3), Cosine(m4), Cosine(m5), Cosine(m6),
       Cosine(m7)]
    else
      [Cosine(m0), Cosine(m1), Cosine(m2), Cosine(m3), Cosine(m4), Cosine(m5), Cosine(m6),
       Cosine(m7), Cosine(m8), Cosine(m9), Cosine(m10), Cosine(m11), Cosine(m12), Cosine(m13),
       Cosine(m14), Cosine(m15)]
  }

  /** The cosines of h angles, from u on in steps of 2 * u. */
  function Wave(ahead: (nat, nat) -> nat, u: nat, h: nat): (s: seq<int>)
    requires (h == 2 || h == 4 || h == 8 || h == 16)
    ensures |s| == h
  {
    var m1 := ahead(u, 2 * u);
    var m2 := ahead(m1, 2 * u);
    var m3 := ahead(m2, 2 * u);
    var m4 := ahead(m3, 2 * u);
    var m5 := ahead(m4, 2 * u);
    var m6 := ahead(m5, 2 * u);
    var m7 := ahead(m6, 2 * u);
    var m8 := ahead(m7, 2 * u);
    var m9 := ahead(m8, 2 * u);
    var m10 := ahead(m9, 2 * u);
    var m11 := ahead(m10, 2 * u);
    var m12 := ahead(m11, 2 * u);
    var m13 := ahead(m12, 2 * u);
    var m14 := ahead(m13, 2 * u);
    var m15 := ahead(m14, 2 * u);
    Cosines(h, u, m1, m2, m3, m4, m5, m6, m7, m8, m9, m10, m11, m12, m13, m14, m15)
  }

  /** The coefficient at column k of a row whose first angle is u. */
  function Coefficient(): (nat, nat) -> int {
    (u: nat, k: nat) => Cosine(Angle(u, k))
  }

  /** Every coefficient is the cosine of its angle. */
  predicate OnLaw(s: seq<int>, u: nat) {
    forall k | 0 <= k < |s| :: s[k] == Coefficient()(u, k)
  }

  lemma CosinesOnLaw(u: nat, h: nat, m0: nat, m1: nat, m2: nat, m3: nat, m4: nat, m5: nat, m6: nat, m7: nat, m8: nat,
                   m9: nat, m10: nat, m11: nat, m12: nat, m13: nat, m14: nat, m15: nat)
    requires h == 2 || h == 4 || h == 8 || h == 16
    requires m0 == Angle(u, 0) && m1 == Angle(u, 1) && m2 == Angle(u, 2) && m3 == Angle(u, 3)
    requires m4 == Angle(u, 4) && m5 == Angle(u, 5) && m6 == Angle(u, 6) && m7 == Angle(u, 7)
    requires m8 == Angle(u, 8) && m9 == Angle(u, 9) && m10 == Angle(u, 10) && m11 == Angle(u, 11)
    requires m12 == Angle(u, 12) && m13 == Angle(u, 13) && m14 == Angle(u, 14) && m15 == Angle(u, 15)
    ensures OnLaw(Cosines(h, m0, m1, m2, m3, m4, m5, m6, m7, m8, m9, m10, m11, m12, m13, m14, m15), u)
  {
    if h == 2 {} else if h == 4 {} else if h == 8 {} else {}
  }

  /** Where steps follow the angles, the wave is on the law. */
  lemma WaveOnLaw(ahead: (nat, nat) -> nat, u: nat, h: nat)
    requires h == 2 || h == 4 || h == 8 || h == 16
    requires Angle(u, 0) == u && forall k: nat :: ahead(Angle(u, k), 2 * u) == Angle(u, k + 1)
    ensures OnLaw(Wave(ahead, u, h), u)
  {
    assert ahead(u, 2 * u) == Angle(u, 1);
    CosinesOnLaw(u, h, u, Angle(u, 1), Angle(u, 2), Angle(u, 3), Angle(u, 4), Angle(u, 5), Angle(u, 6), Angle(u, 7),
                 Angle(u, 8), Angle(u, 9), Angle(u, 10), Angle(u, 11),
                 Angle(u, 12), Angle(u, 13), Angle(u, 14), Angle(u, 15));
  }

  lemma AheadOnLaw(u: nat, h: nat)
    requires u < 32 && (h == 2 || h == 4 || h == 8 || h == 16)
    ensures OnLaw(Wave(Ahead(), u, h), u)
  {
    forall k: nat
      ensures Ahead()(Angle(u, k), 2 * u) == Angle(u, k + 1)
    {
      AngleStep(u, k);
    }
    WaveOnLaw(Ahead(), u, h);
  }

  /** The law as a value. */
  function Law(): (seq<int>, nat) -> bool {
    (s: seq<int>, u: nat) => OnLaw(s, u)
  }

  // The odd rows, and all rows of the smallest matrix, as they are stored.

  lemma Walk4At0()
    ensures Law()(Row4(0).left, 0)
  {
    AheadOnLaw(0, 2);
    assert Row4(0).left == Wave(Ahead(), 0, 2);
  }

  lemma Walk4At1()
    ensures Law()(Row4(1).left, 8)
  {
    AheadOnLaw(8, 2);
    assert Row4(1).left == Wave(Ahead(), 8, 2);
  }

  lemma Walk4At2()
    ensures Law()(Row4(2).left, 16)
  {
    AheadOnLaw(16, 2);
    assert Row4(2).left == Wave(Ahead(), 16, 2);
  }

  lemma Walk4At3()
    ensures Law()(Row4(3).left, 24)
  {
    AheadOnLaw(24, 2);
    assert Row4(3).left == Wave(Ahead(), 24, 2);
  }

  lemma Walk8At1()
    ensures Law()(Row8From0(1).left, 4)
  {
    AheadOnLaw(4, 4);
    assert Row8From0(1).left == Wave(Ahead(), 4, 4);
  }

  lemma Walk8At3()
    ensures Law()(Row8From0(3).left, 12)
  {
    AheadOnLaw(12, 4);
    assert Row8From0(3).left == Wave(Ahead(), 12, 4);
  }

  lemma Walk8At5()
    ensures Law()(Row8From4(5).left, 20)
  {
    AheadOnLaw(20, 4);
    assert Row8From4(5).left == Wave(Ahead(), 20, 4);
  }

  lemma Walk8At7()
    ensures Law()(Row8From4(7).left, 28)
  {
    AheadOnLaw(28, 4);
    assert Row8From4(7).left == Wave(Ahead(), 28, 4);
  }

  lemma Walk16At1()
    ensures Law()(Row16From0(1).left, 2)
  {
    AheadOnLaw(2, 8);
    assert Row16From0(1).left == Wave(Ahead(), 2, 8);
  }

  lemma Walk16At3()
    ensures Law()(Row16From0(3).left, 6)
  {
    AheadOnLaw(6, 8);
    assert Row16From0(3).left == Wave(Ahead(), 6, 8);
  }

  lemma Walk16At5()
    ensures Law()(Row16From4(5).left, 10)
  {
    AheadOnLaw(10, 8);
    assert Row16From4(5).left == Wave(Ahead(), 10, 8);
  }

  lemma Walk16At7()
    ensures Law()(Row16From4(7).left, 14)
  {
    AheadOnLaw(14, 8);
    assert Row16From4(7).left == Wave(Ahead(), 14, 8);
  }

  lemma Walk16At9()
    ensures Law()(Row16From8(9).left, 18)
  {
    AheadOnLaw(18, 8);
    assert Row16From8(9).left == Wave(Ahead(), 18, 8);
  }

  lemma Walk16At11()
    ensures Law()(Row16From8(11).left, 22)
  {
    AheadOnLaw(22, 8);
    assert Row16From8(11).left == Wave(Ahead(), 22, 8);
  }

  lemma Walk16At13()
    ensures Law()(Row16From12(13).left, 26)
  {
    AheadOnLaw(26, 8);
    assert Row16From12(13).left == Wave(Ahead(), 26, 8);
  }

  lemma Walk16At15()
    ensures Law()(Row16From12(15).left, 30)
  {
    AheadOnLaw(30, 8);
    assert Row16From12(15).left == Wave(Ahead(), 30, 8);
  }

  lemma Walk32At1()
    ensures Law()(Row32From0(1).left, 1)
  {
    AheadOnLaw(1, 16);
    assert Row32From0(1).left == Wave(Ahead(), 1, 16);
  }

  lemma Walk32At3()
    ensures Law()(Row32At3().left, 3)
  {
    AheadOnLaw(3, 16);
    assert Row32At3().left == Wave(Ahead(), 3, 16);
  }

  lemma Walk32At5()
    ensures Law()(Row32From4(5).left, 5)
  {
    AheadOnLaw(5, 16);
    assert Row32From4(5).left == Wave(Ahead(), 5, 16);
  }

  lemma Walk32At7()
    ensures Law()(Row32From6(7).left, 7)
  {
    AheadOnLaw(7, 16);
    assert Row32From6(7).left == Wave(Ahead(), 7, 16);
  }

  lemma Walk32At9()
    ensures Law()(Row32From8(9).left, 9)
  {
    AheadOnLaw(9, 16);
    assert Row32From8(9).left == Wave(Ahead(), 9, 16);
  }

  lemma Walk32At11()
    ensures Law()(Row32From10(11).left, 11)
  {
    AheadOnLaw(11, 16);
    assert Row32From10(11).left == Wave(Ahead(), 11, 16);
  }

  lemma Walk32At13()
    ensures Law()(Row32From12(13).left, 13)
  {
    AheadOnLaw(13, 16);
    assert Row32From12(13).left == Wave(Ahead(), 13, 16);
  }

  lemma Walk32At15()
    ensures Law()(Row32From14(15).left, 15)
  {
    AheadOnLaw(15, 16);
    assert Row32From14(15).left == Wave(Ahead(), 15, 16);
  }

  lemma Walk32At17()
    ensures Law()(Row32From16(17).left, 17)
  {
    AheadOnLaw(17, 16);
    assert Row32From16(17).left == Wave(Ahead(), 17, 16);
  }

  lemma Walk32At19()
    ensures Law()(Row32From18(19).left, 19)
  {
    AheadOnLaw(19, 16);
    assert Row32From18(19).left == Wave(Ahead(), 19, 16);
  }

  lemma Walk32At21()
    ensures Law()(Row32From20(21).left, 21)
  {
    AheadOnLaw(21, 16);
    assert Row32From20(21).left == Wave(Ahead(), 21, 16);
  }

  lemma Walk32At23()
    ensures Law()(Row32From22(23).left, 23)
  {
    AheadOnLaw(23, 16);
    assert Row32From22(23).left == Wave(Ahead(), 23, 16);
  }

  lemma Walk32At25()
    ensures Law()(Row32From24(25).left, 25)
  {
    AheadOnLaw(25, 16);
    assert Row32From24(25).left == Wave(Ahead(), 25, 16);
  }

  lemma Walk32At27()
    ensures Law()(Row32From26(27).left, 27)
  {
    AheadOnLaw(27, 16);
    assert Row32From26(27).left == Wave(Ahead(), 27, 16);
  }

  lemma Walk32At29()
    ensures Law()(Row32From28(29).left, 29)
  {
    AheadOnLaw(29, 16);
    assert Row32From28(29).left == Wave(Ahead(), 29, 16);
  }

  lemma Walk32At31()
    ensures Law()(Row32From30(31).left, 31)
  {
    AheadOnLaw(31, 16);
    assert Row32From30(31).left == Wave(Ahead(), 31, 16);
  }

  lemma PickOdd16(p: nat -> bool, r: nat)
    requires p(1) && p(3) && p(5) && p(7) && p(9) && p(11) && p(13) && p(15)
    requires r < 16 && r % 2 == 1
    ensures p(r)
  {
  }

  lemma Row16On1()
    ensures Law()(Row16(1).left, 2)
  {
    Walk16At1();
  }

  lemma Row16On3()
    ensures Law()(Row16(3).left, 6)
  {
    Walk16At3();
  }

  lemma Row16On5()
    ensures Law()(Row16(5).left, 10)
  {
    Walk16At5();
  }

  lemma Row16On7()
    ensures Law()(Row16(7).left, 14)
  {
    Walk16At7();
  }

  lemma Row16On9()
    ensures Law()(Row16(9).left, 18)
  {
    Walk16At9();
  }

  lemma Row16On11()
    ensures Law()(Row16(11).left, 22)
  {
    Walk16At11();
  }

  lemma Row16On13()
    ensures Law()(Row16(13).left, 26)
  {
    Walk16At13();
  }

  lemma Row16On15()
    ensures Law()(Row16(15).left, 30)
  {
    Walk16At15();
  }

  /** Row q of the matrix has a left half on the law. */
  function OnRow16(): nat -> bool {
    (q: nat) => q < 16 && Law()(Row16(q).left, 2 * q)
  }

  lemma LowRows16()
    ensures OnRow16()(1)
    ensures OnRow16()(3)
    ensures OnRow16()(5)
    ensures OnRow16()(7)
  {
    Row16On1();
    Row16On3();
    Row16On5();
    Row16On7();
  }

  lemma HighRows16()
    ensures OnRow16()(9)
    ensures OnRow16()(11)
    ensures OnRow16()(13)
    ensures OnRow16()(15)
  {
    Row16On9();
    Row16On11();
    Row16On13();
    Row16On15();
  }

  lemma OddRows16(r: nat)
    requires r < 16 && r % 2 == 1
    ensures Law()(Row16(r).left, Base(16, r))
  {
    LowRows16();
    HighRows16();
    PickOdd16(OnRow16(), r);
  }

  lemma PickOdd32(p: nat -> bool, r: nat)
    requires p(1) && p(3) && p(5) && p(7) && p(9) && p(11) && p(13) && p(15)
    requires p(17) && p(19) && p(21) && p(23) && p(25) && p(27) && p(29) && p(31)
    requires r < 32 && r % 2 == 1
    ensures p(r)
  {
  }

  lemma Row32On1()
    ensures Law()(Row32(1).left, 1)
  {
    Walk32At1();
  }

  lemma Row32On3()
    ensures Law()(Row32(3).left, 3)
  {
    Walk32At3();
  }

  lemma Row32On5()
    ensures Law()(Row32(5).left, 5)
  {
    Walk32At5();
  }

  lemma Row32On7()
    ensures Law()(Row32(7).left, 7)
  {
    Walk32At7();
  }

  lemma Row32On9()
    ensures Law()(Row32(9).left, 9)
  {
    Walk32At9();
  }

  lemma Row32On11()
    ensures Law()(Row32(11).left, 11)
  {
    Walk32At11();
  }

  lemma Row32On13()
    ensures Law()(Row32(13).left, 13)
  {
    Walk32At13();
  }

  lemma Row32On15()
    ensures Law()(Row32(15).left, 15)
  {
    Walk32At15();
  }

  lemma Row32On17()
    ensures Law()(Row32(17).left, 17)
  {
    Walk32At17();
  }

  lemma Row32On19()
    ensures Law()(Row32(19).left, 19)
  {
    Walk32At19();
  }

  lemma Row32On21()
    ensures Law()(Row32(21).left, 21)
  {
    Walk32At21();
  }

  lemma Row32On23()
    ensures Law()(Row32(23).left, 23)
  {
    Walk32At23();
  }

  lemma Row32On25()
    ensures Law()(Row32(25).left, 25)
  {
    Walk32At25();
  }

  lemma Row32On27()
    ensures Law()(Row32(27).left, 27)
  {
    Walk32At27();
  }

  lemma Row32On29()
    ensures Law()(Row32(29).left, 29)
  {
    Walk32At29();
  }

  lemma Row32On31()
    ensures Law()(Row32(31).left, 31)
  {
    Walk32At31();
  }

  /** Row q of the matrix has a left half on the law. */
  function OnRow32(): nat -> bool {
    (q: nat) => q < 32 && Law()(Row32(q).left, 1 * q)
  }

  lemma LowRows32()
    ensures OnRow32()(1)
    ensures OnRow32()(3)
    ensures OnRow32()(5)
    ensures OnRow32()(7)
    ensures OnRow32()(9)
    ensures OnRow32()(11)
    ensures OnRow32()(13)
    ensures OnRow32()(15)
  {
    Row32On1();
    Row32On3();
    Row32On5();
    Row32On7();
    Row32On9();
    Row32On11();
    Row32On13();
    Row32On15();
  }

  lemma HighRows32()
    ensures OnRow32()(17)
    ensures OnRow32()(19)
    ensures OnRow32()(21)
    ensures OnRow32()(23)
    ensures OnRow32()(25)
    ensures OnRow32()(27)
    ensures OnRow32()(29)
    ensures OnRow32()(31)
  {
    Row32On17();
    Row32On19();
    Row32On21();
    Row32On23();
    Row32On25();
    Row32On27();
    Row32On29();
    Row32On31();
  }

  lemma OddRows32(r: nat)
    requires r < 32 && r % 2 == 1
    ensures Law()(Row32(r).left, Base(32, r))
  {
    LowRows32();
    HighRows32();
    PickOdd32(OnRow32(), r);
  }

  lemma Rows4(r: nat)
    requires r < 4
    ensures Law()(Row4(r).left, Base(4, r))
  {
    if r == 0 { Walk4At0(); } else if r == 1 { Walk4At1(); } else if r == 2 { Walk4At2(); } else { Walk4At3(); }
  }

  lemma OddRows8(r: nat)
    requires r < 8 && r % 2 == 1
    ensures Law()(Row8(r).left, Base(8, r))
  {
    if r == 1 { Walk8At1(); } else if r == 3 { Walk8At3(); } else if r == 5 { Walk8At5(); } else { Walk8At7(); }
  }

  // All coefficients.

  lemma ModSum(a: nat, b: nat, r: nat)
    requires a + b == 64 * r
    ensures var s := a % 128 + b % 128; if r % 2 == 0 then s == 0 || s == 128 else s == 64 || s == 192
  {
  }

  lemma Together(u: nat, x: nat, y: nat)
    ensures u * x + u * y == u * (x + y)
  {
  }

  lemma WholeTurns(n: nat, r: nat)
    requires IsSize(n) && r < n
    ensures Base(n, r) * (2 * n) == 64 * r
  {
    if n == 4 {} else if n == 8 {} else if n == 16 {} else {}
  }

  /** The angles of column k and of its mirror image add up to half a turn for each row. */
  lemma AngleMirrored(n: nat, r: nat, k: nat)
    requires IsSize(n) && r < n && k < n
    ensures var s := Angle(Base(n, r), k) + Angle(Base(n, r), n - 1 - k);
      if r % 2 == 0 then s == 0 || s == 128 else s == 64 || s == 192
  {
    var u := Base(n, r);
    Together(u, 2 * k + 1, 2 * (n - 1 - k) + 1);
    assert 2 * k + 1 + (2 * (n - 1 - k) + 1) == 2 * n;
    WholeTurns(n, r);
    ModSum(u * (2 * k + 1), u * (2 * (n - 1 - k) + 1), r);
  }

  lemma CosineMirrored(n: nat, r: nat, k: nat)
    requires IsSize(n) && r < n && k < n
    ensures var m, o := Coefficient()(Base(n, r), k), Coefficient()(Base(n, r), n - 1 - k);
      o == if r % 2 == 0 then m else -m
  {
    AngleMirrored(n, r, k);
    var m, o := Angle(Base(n, r), k), Angle(Base(n, r), n - 1 - k);
    if r % 2 == 0 { CosineEven(m, o); } else { CosineHalfTurn(m, o); }
  }

  /** The left halves of the rows that no smaller matrix fixes. */
  ghost predicate Seeded(t: Family) {
    forall n: nat, r: nat | IsSize(n) && r < n && (n == 4 || r % 2 == 1) ::
      |t(n, r)| == n && OnLaw(t(n, r)[..n / 2], Base(n, r))
  }

  lemma LeftHalf(n: nat, r: nat)
    requires IsSize(n) && r < n
    ensures |Stored(n, r)| == n
    ensures Stored(n, r)[..n / 2] ==
      if n == 4 then Row4(r).left else if n == 8 then Row8(r).left else if n == 16 then Row16(r).left else Row32(r).left
  {
    if n == 4 { Check4(r); } else if n == 8 { Check8(r); } else if n == 16 { Check16(r); } else { Check32(r); }
  }

  lemma StoredSeeded()
    ensures Seeded(StoredFamily())
  {
    forall n: nat, r: nat | IsSize(n) && r < n && (n == 4 || r % 2 == 1)
      ensures |StoredFamily()(n, r)| == n && OnLaw(StoredFamily()(n, r)[..n / 2], Base(n, r))
    {
      LeftHalf(n, r);
      if n == 4 { Rows4(r); } else if n == 8 { OddRows8(r); } else if n == 16 { OddRows16(r); } else { OddRows32(r); }
    }
  }

  predicate LawAt(t: Family, n: nat, r: nat, k: nat)
    requires IsSize(n) && r < n
  {
    k < |t(n, r)| == n && t(n, r)[k] == Coefficient()(Base(n, r), k)
  }

  lemma LawMirrored(t: Family, n: nat, r: nat, k: nat)
    requires Layered(t) && IsSize(n) && r < n && k < n && LawAt(t, n, r, n - 1 - k)
    ensures LawAt(t, n, r, k)
  {
    assert Balanced(t(n, r), n, r % 2 == 0);
    CosineMirrored(n, r, n - 1 - k);
  }

  lemma LawSeeded(t: Family, n: nat, r: nat, k: nat)
    requires Seeded(t) && IsSize(n) && r < n && (n == 4 || r % 2 == 1) && k < n / 2
    ensures LawAt(t, n, r, k)
  {
    assert t(n, r)[..n / 2][k] == t(n, r)[k];
  }

  lemma Nesting(t: Family, n: nat, r: nat, k: nat)
    requires Layered(t) && IsSize(n) && n < 32 && r < n && k < n
    ensures |t(n, r)| == n && |t(2 * n, 2 * r)| == 2 * n && t(2 * n, 2 * r)[k] == t(n, r)[k]
  {
    assert Balanced(t(n, r), n, r % 2 == 0) && Balanced(t(2 * n, 2 * r), 2 * n, true);
    assert Extends(t, n, r);
  }

  lemma LawExtended(t: Family, n: nat, r: nat, k: nat)
    requires Layered(t) && IsSize(n) && n < 32 && r < n && k < n && LawAt(t, n, r, k)
    ensures LawAt(t, 2 * n, 2 * r, k)
  {
    Nesting(t, n, r, k);
    SameBase(n, r);
  }

  lemma LawHalved(t: Family, n: nat, r: nat, k: nat)
    requires Layered(t) && IsSize(n) && n > 4 && r < n && r % 2 == 0 && k < n / 2 && LawAt(t, n / 2, r / 2, k)
    ensures LawAt(t, n, r, k)
  {
    var m, q := n / 2, r / 2;
    assert 2 * m == n && 2 * q == r;
    LawExtended(t, m, q, k);
  }

  lemma SameBase(n: nat, r: nat)
    requires IsSize(n) && n < 32 && r < n
    ensures Base(2 * n, 2 * r) == Base(n, r)
  {
    if n == 4 {} else if n == 8 {} else {}
  }

  lemma {:induction false} FamilyOnLaw(t: Family, n: nat, r: nat, k: nat)
    requires Layered(t) && Seeded(t) && IsSize(n) && r < n && k < n
    ensures LawAt(t, n, r, k)
    decreases n, k
  {
    if k >= n / 2 {
      FamilyOnLaw(t, n, r, n - 1 - k);
      LawMirrored(t, n, r, k);
    } else if n == 4 || r % 2 == 1 {
      LawSeeded(t, n, r, k);
    } else {
      FamilyOnLaw(t, n / 2, r / 2, k);
      LawHalved(t, n, r, k);
    }
  }

  /** Coefficient k of row r of the stored n-point matrix is the scaled cosine of r * (2 * k + 1)
      parts of a turn, 4 * n to a turn. */
  lemma CosineLaw(n: nat, r: nat, k: nat)
    requires IsSize(n) && r < n && k < n
    ensures |Stored(n, r)| == n && Stored(n, r)[k] == Cosine(Angle(Base(n, r), k))
  {
    StoredLayered();
    StoredSeeded();
    FamilyOnLaw(StoredFamily(), n, r, k);
  }
}
