/** The inverse transform matrices of section 8.6.4.2 of H.265, row by row as they are stored, and
    the symmetries that the butterflies rely on. */
module TransTable {
  import opened Common
  import opened Butterfly

  /** A stored row, written in two halves. */
  datatype Halves = Halves(left: seq<int>, right: seq<int>) {
    function Whole(): seq<int> { left + right }
  }

  /** A small coefficient of the left half whose mirror image is the same in an even row and its
      negation in an odd row. */
  predicate Twins(row: Halves, even: bool, k: nat)
    requires k < |row.left| == |row.right|
  {
    && -90 <= row.left[k] <= 90
    && row.right[|row.right| - 1 - k] == if even then row.left[k] else -row.left[k]
  }

  predicate FourTwins(row: Halves, even: bool, k: nat)
    requires k + 3 < |row.left| == |row.right|
  {
    Twins(row, even, k) && Twins(row, even, k + 1) && Twins(row, even, k + 2) && Twins(row, even, k + 3)
  }

  /** All of a row of n, one coefficient after the other. */
  predicate Checked(row: Halves, n: nat, even: bool)
    requires IsSize(n)
  {
    && |row.left| == |row.right| == n / 2 && Twins(row, even, 0) && Twins(row, even, 1)
    && (n > 4 ==> Twins(row, even, 2) && Twins(row, even, 3))
    && (n > 8 ==> FourTwins(row, even, 4))
    && (n > 16 ==> FourTwins(row, even, 8) && FourTwins(row, even, 12))
  }

  /** A whole row of n small coefficients, symmetric or antisymmetric about its middle. */
  predicate Balanced(row: seq<int>, n: nat, even: bool) {
    |row| == n && forall k | 0 <= k < n ::
      -90 <= row[k] <= 90 && row[n - 1 - k] == if even then row[k] else -row[k]
  }

  lemma CheckedBalanced(row: Halves, n: nat, even: bool)
    requires IsSize(n) && Checked(row, n, even)
    ensures Balanced(row.Whole(), n, even)
  {
    forall k | 0 <= k < n / 2
      ensures Twins(row, even, k)
    {
    }
    forall k | 0 <= k < n
      ensures -90 <= row.Whole()[k] <= 90
      ensures row.Whole()[n - 1 - k] == if even then row.Whole()[k] else -row.Whole()[k]
    {
      assert Twins(row, even, if k < n / 2 then k else n - 1 - k);
    }
  }

  // g_ai2_ihevc_trans_4, _8, _16 and _32.

  function Row4(r: nat): Halves
    requires r < 4
  {
    match r
    case 0 => Halves([64, 64], [64, 64])
    case 1 => Halves([83, 36], [-36, -83])
    case 2 => Halves([64, -64], [-64, 64])
    case _ => Halves([36, -83], [83, -36])
  }

  function Row8From0(r: nat): Halves
    requires r < 4
  {
    match r
    case 0 => Halves([64, 64, 64, 64], [64, 64, 64, 64])
    case 1 => Halves([89, 75, 50, 18], [-18, -50, -75, -89])
    case 2 => Halves([83, 36, -36, -83], [-83, -36, 36, 83])
    case _ => Halves([75, -18, -89, -50], [50, 89, 18, -75])
  }

  function Row8From4(r: nat): Halves
    requires 4 <= r < 8
  {
    match r
    case 4 => Halves([64, -64, -64, 64], [64, -64, -64, 64])
    case 5 => Halves([50, -89, 18, 75], [-75, -18, 89, -50])
    case 6 => Halves([36, -83, 83, -36], [-36, 83, -83, 36])
    case _ => Halves([18, -50, 75, -89], [89, -75, 50, -18])
  }

  function Row8(r: nat): Halves
    requires r < 8
  {
    if r < 4 then Row8From0(r) else Row8From4(r)
  }

  function Row16From0(r: nat): Halves
    requires r < 4
  {
    match r
    case 0 => Halves([64, 64, 64, 64, 64, 64, 64, 64], [64, 64, 64, 64, 64, 64, 64, 64])
    case 1 => Halves([90, 87, 80, 70, 57, 43, 25, 9], [-9, -25, -43, -57, -70, -80, -87, -90])
    case 2 => Halves([89, 75, 50, 18, -18, -50, -75, -89], [-89, -75, -50, -18, 18, 50, 75, 89])
    case _ => Halves([87, 57, 9, -43, -80, -90, -70, -25], [25, 70, 90, 80, 43, -9, -57, -87])
  }

  function Row16From4(r: nat): Halves
    requires 4 <= r < 8
  {
    match r
    case 4 => Halves([83, 36, -36, -83, -83, -36, 36, 83], [83, 36, -36, -83, -83, -36, 36, 83])
    case 5 => Halves([80, 9, -70, -87, -25, 57, 90, 43], [-43, -90, -57, 25, 87, 70, -9, -80])
    case 6 => Halves([75, -18, -89, -50, 50, 89, 18, -75], [-75, 18, 89, 50, -50, -89, -18, 75])
    case _ => Halves([70, -43, -87, 9, 90, 25, -80, -57], [57, 80, -25, -90, -9, 87, 43, -70])
  }

  function Row16From8(r: nat): Halves
    requires 8 <= r < 12
  {
    match r
    case 8 => Halves([64, -64, -64, 64, 64, -64, -64, 64], [64, -64, -64, 64, 64, -64, -64, 64])
    case 9 => Halves([57, -80, -25, 90, -9, -87, 43, 70], [-70, -43, 87, 9, -90, 25, 80, -57])
    case 10 => Halves([50, -89, 18, 75, -75, -18, 89, -50], [-50, 89, -18, -75, 75, 18, -89, 50])
    case _ => Halves([43, -90, 57, 25, -87, 70, 9, -80], [80, -9, -70, 87, -25, -57, 90, -43])
  }

  function Row16From12(r: nat): Halves
    requires 12 <= r < 16
  {
    match r
    case 12 => Halves([36, -83, 83, -36, -36, 83, -83, 36], [36, -83, 83, -36, -36, 83, -83, 36])
    case 13 => Halves([25, -70, 90, -80, 43, 9, -57, 87], [-87, 57, -9, -43, 80, -90, 70, -25])
    case 14 => Halves([18, -50, 75, -89, 89, -75, 50, -18], [-18, 50, -75, 89, -89, 75, -50, 18])
    case _ => Halves([9, -25, 43, -57, 70, -80, 87, -90], [90, -87, 80, -70, 57, -43, 25, -9])
  }

  function Row16(r: nat): Halves
    requires r < 16
  {
    if r < 8 then
      if r < 4 then Row16From0(r) else Row16From4(r)
    else
      if r < 12 then Row16From8(r) else Row16From12(r)
  }

  function Row32From0(r: nat): Halves
    requires r < 2
  {
    match r
    case 0 => Halves(
      [64, 64, 64, 64, 64, 64, 64, 64, 64, 64, 64, 64, 64, 64, 64, 64],
      [64, 64, 64, 64, 64, 64, 64, 64, 64, 64, 64, 64, 64, 64, 64, 64])
    case _ => Halves(
      [90, 90, 88, 85, 82, 78, 73, 67, 61, 54, 46, 38, 31, 22, 13, 4],
      [-4, -13, -22, -31, -38, -46, -54, -61, -67, -73, -78, -82, -85, -88, -90, -90])
  }

  function Row32At2(): Halves {
    Halves(
      [90, 87, 80, 70, 57, 43, 25, 9, -9, -25, -43, -57, -70, -80, -87, -90],
      [-90, -87, -80, -70, -57, -43, -25, -9, 9, 25, 43, 57, 70, 80, 87, 90])
  }

  function Row32At3(): Halves {
    Halves(
      [90, 82, 67, 46, 22, -4, -31, -54, -73, -85, -90, -88, -78, -61, -38, -13],
      [13, 38, 61, 78, 88, 90, 85, 73, 54, 31, 4, -22, -46, -67, -82, -90])
  }

  function Row32From4(r: nat): Halves
    requires 4 <= r < 6
  {
    match r
    case 4 => Halves(
      [89, 75, 50, 18, -18, -50, -75, -89, -89, -75, -50, -18, 18, 50, 75, 89],
      [89, 75, 50, 18, -18, -50, -75, -89, -89, -75, -50, -18, 18, 50, 75, 89])
    case _ => Halves(
      [88, 67, 31, -13, -54, -82, -90, -78, -46, -4, 38, 73, 90, 85, 61, 22],
      [-22, -61, -85, -90, -73, -38, 4, 46, 78, 90, 82, 54, 13, -31, -67, -88])
  }

  function Row32From6(r: nat): Halves
    requires 6 <= r < 8
  {
    match r
    case 6 => Halves(
      [87, 57, 9, -43, -80, -90, -70, -25, 25, 70, 90, 80, 43, -9, -57, -87],
      [-87, -57, -9, 43, 80, 90, 70, 25, -25, -70, -90, -80, -43, 9, 57, 87])
    case _ => Halves(
      [85, 46, -13, -67, -90, -73, -22, 38, 82, 88, 54, -4, -61, -90, -78, -31],
      [31, 78, 90, 61, 4, -54, -88, -82, -38, 22, 73, 90, 67, 13, -46, -85])
  }

  function Row32From8(r: nat): Halves
    requires 8 <= r < 10
  {
    match r
    case 8 => Halves(
      [83, 36, -36, -83, -83, -36, 36, 83, 83, 36, -36, -83, -83, -36, 36, 83],
      [83, 36, -36, -83, -83, -36, 36, 83, 83, 36, -36, -83, -83, -36, 36, 83])
    case _ => Halves(
      [82, 22, -54, -90, -61, 13, 78, 85, 31, -46, -90, -67, 4, 73, 88, 38],
      [-38, -88, -73, -4, 67, 90, 46, -31, -85, -78, -13, 61, 90, 54, -22, -82])
  }

  function Row32From10(r: nat): Halves
    requires 10 <= r < 12
  {
    match r
    case 10 => Halves(
      [80, 9, -70, -87, -25, 57, 90, 43, -43, -90, -57, 25, 87, 70, -9, -80],
      [-80, -9, 70, 87, 25, -57, -90, -43, 43, 90, 57, -25, -87, -70, 9, 80])
    case _ => Halves(
      [78, -4, -82, -73, 13, 85, 67, -22, -88, -61, 31, 90, 54, -38, -90, -46],
      [46, 90, 38, -54, -90, -31, 61, 88, 22, -67, -85, -13, 73, 82, 4, -78])
  }

  function Row32From12(r: nat): Halves
    requires 12 <= r < 14
  {
    match r
    case 12 => Halves(
      [75, -18, -89, -50, 50, 89, 18, -75, -75, 18, 89, 50, -50, -89, -18, 75],
      [75, -18, -89, -50, 50, 89, 18, -75, -75, 18, 89, 50, -50, -89, -18, 75])
    case _ => Halves(
      [73, -31, -90, -22, 78, 67, -38, -90, -13, 82, 61, -46, -88, -4, 85, 54],
      [-54, -85, 4, 88, 46, -61, -82, 13, 90, 38, -67, -78, 22, 90, 31, -73])
  }

  function Row32From14(r: nat): Halves
    requires 14 <= r < 16
  {
    match r
    case 14 => Halves(
      [70, -43, -87, 9, 90, 25, -80, -57, 57, 80, -25, -90, -9, 87, 43, -70],
      [-70, 43, 87, -9, -90, -25, 80, 57, -57, -80, 25, 90, 9, -87, -43, 70])
    case _ => Halves(
      [67, -54, -78, 38, 85, -22, -90, 4, 90, 13, -88, -31, 82, 46, -73, -61],
      [61, 73, -46, -82, 31, 88, -13, -90, -4, 90, 22, -85, -38, 78, 54, -67])
  }

  function Row32From16(r: nat): Halves
    requires 16 <= r < 18
  {
    match r
    case 16 => Halves(
      [64, -64, -64, 64, 64, -64, -64, 64, 64, -64, -64, 64, 64, -64, -64, 64],
      [64, -64, -64, 64, 64, -64, -64, 64, 64, -64, -64, 64, 64, -64, -64, 64])
    case _ => Halves(
      [61, -73, -46, 82, 31, -88, -13, 90, -4, -90, 22, 85, -38, -78, 54, 67],
      [-67, -54, 78, 38, -85, -22, 90, 4, -90, 13, 88, -31, -82, 46, 73, -61])
  }

  function Row32From18(r: nat): Halves
    requires 18 <= r < 20
  {
    match r
    case 18 => Halves(
      [57, -80, -25, 90, -9, -87, 43, 70, -70, -43, 87, 9, -90, 25, 80, -57],
      [-57, 80, 25, -90, 9, 87, -43, -70, 70, 43, -87, -9, 90, -25, -80, 57])
    case _ => Halves(
      [54, -85, -4, 88, -46, -61, 82, 13, -90, 38, 67, -78, -22, 90, -31, -73],
      [73, 31, -90, 22, 78, -67, -38, 90, -13, -82, 61, 46, -88, 4, 85, -54])
  }

  function Row32From20(r: nat): Halves
    requires 20 <= r < 22
  {
    match r
    case 20 => Halves(
      [50, -89, 18, 75, -75, -18, 89, -50, -50, 89, -18, -75, 75, 18, -89, 50],
      [50, -89, 18, 75, -75, -18, 89, -50, -50, 89, -18, -75, 75, 18, -89, 50])
    case _ => Halves(
      [46, -90, 38, 54, -90, 31, 61, -88, 22, 67, -85, 13, 73, -82, 4, 78],
      [-78, -4, 82, -73, -13, 85, -67, -22, 88, -61, -31, 90, -54, -38, 90, -46])
  }

  function Row32From22(r: nat): Halves
    requires 22 <= r < 24
  {
    match r
    case 22 => Halves(
      [43, -90, 57, 25, -87, 70, 9, -80, 80, -9, -70, 87, -25, -57, 90, -43],
      [-43, 90, -57, -25, 87, -70, -9, 80, -80, 9, 70, -87, 25, 57, -90, 43])
    case _ => Halves(
      [38, -88, 73, -4, -67, 90, -46, -31, 85, -78, 13, 61, -90, 54, 22, -82],
      [82, -22, -54, 90, -61, -13, 78, -85, 31, 46, -90, 67, 4, -73, 88, -38])
  }

  function Row32From24(r: nat): Halves
    requires 24 <= r < 26
  {
    match r
    case 24 => Halves(
      [36, -83, 83, -36, -36, 83, -83, 36, 36, -83, 83, -36, -36, 83, -83, 36],
      [36, -83, 83, -36, -36, 83, -83, 36, 36, -83, 83, -36, -36, 83, -83, 36])
    case _ => Halves(
      [31, -78, 90, -61, 4, 54, -88, 82, -38, -22, 73, -90, 67, -13, -46, 85],
      [-85, 46, 13, -67, 90, -73, 22, 38, -82, 88, -54, -4, 61, -90, 78, -31])
  }

  function Row32From26(r: nat): Halves
    requires 26 <= r < 28
  {
    match r
    case 26 => Halves(
      [25, -70, 90, -80, 43, 9, -57, 87, -87, 57, -9, -43, 80, -90, 70, -25],
      [-25, 70, -90, 80, -43, -9, 57, -87, 87, -57, 9, 43, -80, 90, -70, 25])
    case _ => Halves(
      [22, -61, 85, -90, 73, -38, -4, 46, -78, 90, -82, 54, -13, -31, 67, -88],
      [88, -67, 31, 13, -54, 82, -90, 78, -46, 4, 38, -73, 90, -85, 61, -22])
  }

  function Row32From28(r: nat): Halves
    requires 28 <= r < 30
  {
    match r
    case 28 => Halves(
      [18, -50, 75, -89, 89, -75, 50, -18, -18, 50, -75, 89, -89, 75, -50, 18],
      [18, -50, 75, -89, 89, -75, 50, -18, -18, 50, -75, 89, -89, 75, -50, 18])
    case _ => Halves(
      [13, -38, 61, -78, 88, -90, 85, -73, 54, -31, 4, 22, -46, 67, -82, 90],
      [-90, 82, -67, 46, -22, -4, 31, -54, 73, -85, 90, -88, 78, -61, 38, -13])
  }

  function Row32From30(r: nat): Halves
    requires 30 <= r < 32
  {
    match r
    case 30 => Halves(
      [9, -25, 43, -57, 70, -80, 87, -90, 90, -87, 80, -70, 57, -43, 25, -9],
      [-9, 25, -43, 57, -70, 80, -87, 90, -90, 87, -80, 70, -57, 43, -25, 9])
    case _ => Halves(
      [4, -13, 22, -31, 38, -46, 54, -61, 67, -73, 78, -82, 85, -88, 90, -90],
      [90, -90, 88, -85, 82, -78, 73, -67, 61, -54, 46, -38, 31, -22, 13, -4])
  }

  function Row32(r: nat): Halves
    requires r < 32
  {
    if r < 16 then
      if r < 8 then
        if r < 4 then
          if r < 2 then Row32From0(r) else if r == 2 then Row32At2() else Row32At3()
        else
          if r < 6 then Row32From4(r) else Row32From6(r)
      else
        if r < 12 then
          if r < 10 then Row32From8(r) else Row32From10(r)
        else
          if r < 14 then Row32From12(r) else Row32From14(r)
    else
      if r < 24 then
        if r < 20 then
          if r < 18 then Row32From16(r) else Row32From18(r)
        else
          if r < 22 then Row32From20(r) else Row32From22(r)
      else
        if r < 28 then
          if r < 26 then Row32From24(r) else Row32From26(r)
        else
          if r < 30 then Row32From28(r) else Row32From30(r)
  }

  /** Row r of the stored n-point matrix. */
  function Stored(n: nat, r: nat): seq<int>
    requires IsSize(n) && r < n
  {
    if n == 4 then Row4(r).Whole() else if n == 8 then Row8(r).Whole()
    else if n == 16 then Row16(r).Whole() else Row32(r).Whole()
  }

  // Every stored row is small and has its symmetry.

  lemma Check4(r: nat)
    requires r < 4
    ensures Checked(Row4(r), 4, r % 2 == 0)
  {
    if r == 0 {} else if r == 1 {} else if r == 2 {} else {}
  }

  lemma Check8From0(r: nat)
    requires r < 4
    ensures Checked(Row8From0(r), 8, r % 2 == 0)
  {
    if r == 0 {} else if r == 1 {} else if r == 2 {} else {}
  }

  lemma Check8From4(r: nat)
    requires 4 <= r < 8
    ensures Checked(Row8From4(r), 8, r % 2 == 0)
  {
    if r == 4 {} else if r == 5 {} else if r == 6 {} else {}
  }

  lemma Check16From0(r: nat)
    requires r < 4
    ensures Checked(Row16From0(r), 16, r % 2 == 0)
  {
    if r == 0 {} else if r == 1 {} else if r == 2 {} else {}
  }

  lemma Check16From4(r: nat)
    requires 4 <= r < 8
    ensures Checked(Row16From4(r), 16, r % 2 == 0)
  {
    if r == 4 {} else if r == 5 {} else if r == 6 {} else {}
  }

  lemma Check16From8(r: nat)
    requires 8 <= r < 12
    ensures Checked(Row16From8(r), 16, r % 2 == 0)
  {
    if r == 8 {} else if r == 9 {} else if r == 10 {} else {}
  }

  lemma Check16From12(r: nat)
    requires 12 <= r < 16
    ensures Checked(Row16From12(r), 16, r % 2 == 0)
  {
    if r == 12 {} else if r == 13 {} else if r == 14 {} else {}
  }

  lemma Check32From0(r: nat)
    requires r < 2
    ensures Checked(Row32From0(r), 32, r % 2 == 0)
  {
    if r == 0 {} else {}
  }

  lemma Check32At2()
    ensures Checked(Row32At2(), 32, true)
  {
  }

  lemma Check32At3()
    ensures Checked(Row32At3(), 32, false)
  {
  }

  lemma Check32From4(r: nat)
    requires 4 <= r < 6
    ensures Checked(Row32From4(r), 32, r % 2 == 0)
  {
    if r == 4 {} else {}
  }

  lemma Check32From6(r: nat)
    requires 6 <= r < 8
    ensures Checked(Row32From6(r), 32, r % 2 == 0)
  {
    if r == 6 {} else {}
  }

  lemma Check32From8(r: nat)
    requires 8 <= r < 10
    ensures Checked(Row32From8(r), 32, r % 2 == 0)
  {
    if r == 8 {} else {}
  }

  lemma Check32From10(r: nat)
    requires 10 <= r < 12
    ensures Checked(Row32From10(r), 32, r % 2 == 0)
  {
    if r == 10 {} else {}
  }

  lemma Check32From12(r: nat)
    requires 12 <= r < 14
    ensures Checked(Row32From12(r), 32, r % 2 == 0)
  {
    if r == 12 {} else {}
  }

  lemma Check32From14(r: nat)
    requires 14 <= r < 16
    ensures Checked(Row32From14(r), 32, r % 2 == 0)
  {
    if r == 14 {} else {}
  }

  lemma Check32From16(r: nat)
    requires 16 <= r < 18
    ensures Checked(Row32From16(r), 32, r % 2 == 0)
  {
    if r == 16 {} else {}
  }

  lemma Check32From18(r: nat)
    requires 18 <= r < 20
    ensures Checked(Row32From18(r), 32, r % 2 == 0)
  {
    if r == 18 {} else {}
  }

  lemma Check32From20(r: nat)
    requires 20 <= r < 22
    ensures Checked(Row32From20(r), 32, r % 2 == 0)
  {
    if r == 20 {} else {}
  }

  lemma Check32From22(r: nat)
    requires 22 <= r < 24
    ensures Checked(Row32From22(r), 32, r % 2 == 0)
  {
    if r == 22 {} else {}
  }

  lemma Check32From24(r: nat)
    requires 24 <= r < 26
    ensures Checked(Row32From24(r), 32, r % 2 == 0)
  {
    if r == 24 {} else {}
  }

  lemma Check32From26(r: nat)
    requires 26 <= r < 28
    ensures Checked(Row32From26(r), 32, r % 2 == 0)
  {
    if r == 26 {} else {}
  }

  lemma Check32From28(r: nat)
    requires 28 <= r < 30
    ensures Checked(Row32From28(r), 32, r % 2 == 0)
  {
    if r == 28 {} else {}
  }

  lemma Check32From30(r: nat)
    requires 30 <= r < 32
    ensures Checked(Row32From30(r), 32, r % 2 == 0)
  {
    if r == 30 {} else {}
  }

  lemma Check8(r: nat)
    requires r < 8
    ensures Checked(Row8(r), 8, r % 2 == 0)
  {
    if r < 4 { Check8From0(r); } else { Check8From4(r); }
  }

  lemma Check16(r: nat)
    requires r < 16
    ensures Checked(Row16(r), 16, r % 2 == 0)
  {
    if r < 8 {
      if r < 4 { Check16From0(r); } else { Check16From4(r); }
    } else {
      if r < 12 { Check16From8(r); } else { Check16From12(r); }
    }
  }

  lemma Check32(r: nat)
    requires r < 32
    ensures Checked(Row32(r), 32, r % 2 == 0)
  {
    if r < 16 {
      if r < 8 {
        if r < 4 {
          if r < 2 { Check32From0(r); } else if r == 2 { Check32At2(); } else { Check32At3(); }
        } else {
          if r < 6 { Check32From4(r); } else { Check32From6(r); }
        }
      } else {
        if r < 12 {
          if r < 10 { Check32From8(r); } else { Check32From10(r); }
        } else {
          if r < 14 { Check32From12(r); } else { Check32From14(r); }
        }
      }
    } else {
      if r < 24 {
        if r < 20 {
          if r < 18 { Check32From16(r); } else { Check32From18(r); }
        } else {
          if r < 22 { Check32From20(r); } else { Check32From22(r); }
        }
      } else {
        if r < 28 {
          if r < 26 { Check32From24(r); } else { Check32From26(r); }
        } else {
          if r < 30 { Check32From28(r); } else { Check32From30(r); }
        }
      }
    }
  }

  lemma StoredBalanced(n: nat, r: nat)
    requires IsSize(n) && r < n
    ensures Balanced(Stored(n, r), n, r % 2 == 0)
  {
    if n == 4 {
      Check4(r);
      CheckedBalanced(Row4(r), n, r % 2 == 0);
    } else if n == 8 {
      Check8(r);
      CheckedBalanced(Row8(r), n, r % 2 == 0);
    } else if n == 16 {
      Check16(r);
      CheckedBalanced(Row16(r), n, r % 2 == 0);
    } else {
      Check32(r);
      CheckedBalanced(Row32(r), n, r % 2 == 0);
    }
  }

  // The stored matrices are nested.

  lemma Leads4(r: nat)
    requires r < 4
    ensures Row4(r).Whole() == Row8(2 * r).left
  {
    if r == 0 {} else if r == 1 {} else if r == 2 {} else {}
  }

  lemma Leads8From0(r: nat)
    requires r < 4
    ensures Row8From0(r).Whole() == Row16(2 * r).left
  {
    if r == 0 {} else if r == 1 {} else if r == 2 {} else {}
  }

  lemma Leads8From4(r: nat)
    requires 4 <= r < 8
    ensures Row8From4(r).Whole() == Row16(2 * r).left
  {
    if r == 4 {} else if r == 5 {} else if r == 6 {} else {}
  }

  lemma Leads16From0(r: nat)
    requires r < 2
    ensures Row16From0(r).Whole() == Row32(2 * r).left
  {
    if r == 0 {} else {}
  }

  lemma Leads16From2(r: nat)
    requires 2 <= r < 4
    ensures Row16From0(r).Whole() == Row32(2 * r).left
  {
    if r == 2 {} else {}
  }

  lemma Leads16From4(r: nat)
    requires 4 <= r < 6
    ensures Row16From4(r).Whole() == Row32(2 * r).left
  {
    if r == 4 {} else {}
  }

  lemma Leads16From6(r: nat)
    requires 6 <= r < 8
    ensures Row16From4(r).Whole() == Row32(2 * r).left
  {
    if r == 6 {} else {}
  }

  lemma Leads16From8(r: nat)
    requires 8 <= r < 10
    ensures Row16From8(r).Whole() == Row32(2 * r).left
  {
    if r == 8 {} else {}
  }

  lemma Leads16From10(r: nat)
    requires 10 <= r < 12
    ensures Row16From8(r).Whole() == Row32(2 * r).left
  {
    if r == 10 {} else {}
  }

  lemma Leads16From12(r: nat)
    requires 12 <= r < 14
    ensures Row16From12(r).Whole() == Row32(2 * r).left
  {
    if r == 12 {} else {}
  }

  lemma Leads16From14(r: nat)
    requires 14 <= r < 16
    ensures Row16From12(r).Whole() == Row32(2 * r).left
  {
    if r == 14 {} else {}
  }

  /** The smaller matrices are the leading columns of every second row of the next one. */
  lemma Nested(n: nat, r: nat)
    requires IsSize(n) && n < 32 && r < n
    ensures Stored(n, r) <= Stored(2 * n, 2 * r)
  {
    if n == 4 {
      Leads4(r);
    } else if n == 8 {
      if r < 4 { Leads8From0(r); } else { Leads8From4(r); }
    } else if r < 8 {
      if r < 2 { Leads16From0(r); } else if r < 4 { Leads16From2(r); }
      else if r < 6 { Leads16From4(r); } else { Leads16From6(r); }
    } else {
      if r < 10 { Leads16From8(r); } else if r < 12 { Leads16From10(r); }
      else if r < 14 { Leads16From12(r); } else { Leads16From14(r); }
    }
  }

  // Symmetry at every stride.

  /** n == s * w for powers of two, s being a proper factor. */
  predicate Factors(n: nat, s: nat, w: nat) {
    (s == 1 && w == n) || (s == 2 && 2 * w == n) || (s == 4 && 4 * w == n) ||
    (s == 8 && 8 * w == n) || (s == 16 && 16 * w == n)
  }

  predicate EvenMultiple(r: nat, s: nat)
    requires s > 0
  {
    r % (2 * s) == 0
  }

  predicate Multiple(r: nat, s: nat)
    requires s > 0
  {
    r % s == 0
  }

  lemma HalfMod(r: nat, s: nat)
    requires (s == 2 || s == 4 || s == 8 || s == 16) && Multiple(r, s)
    ensures r % 2 == 0 && Multiple(r / 2, s / 2)
    ensures EvenMultiple(r, s) <==> EvenMultiple(r / 2, s / 2)
  {
    var t, q := s / 2, r / s;
    var h, b := q / 2, q % 2;
    Distribute(s, h, b);
    Distribute(t, h, b);
    assert r == s * (2 * h + b) == 2 * (t * (2 * h + b));
    DivModUnique(r / 2, t, q, 0);
    DivModUnique(r / 2, s, h, t * b);
    DivModUnique(r, 2 * s, h, s * b);
  }

  lemma Distribute(t: int, h: int, b: int)
    ensures t * (2 * h + b) == (2 * t) * h + t * b
  {
  }

  /** A family of matrices, one per size: symmetric rows, each matrix nested in the next one. */
  type Family = (nat, nat) -> seq<int>

  /** Row r of the matrix of size n is how row 2 * r of the next matrix begins. */
  predicate Extends(t: Family, n: nat, r: nat) { t(n, r) <= t(2 * n, 2 * r) }

  ghost predicate Layered(t: Family) {
    && (forall n: nat, r: nat | IsSize(n) && r < n :: Balanced(t(n, r), n, r % 2 == 0))
    && (forall n: nat, r: nat | IsSize(n) && n < 32 && r < n :: Extends(t, n, r))
    && t(4, 0)[1] == t(4, 0)[0] && t(4, 2)[1] == -t(4, 2)[0]
  }

  function StoredFamily(): Family {
    (n: nat, r: nat) => if IsSize(n) && r < n then Stored(n, r) else []
  }

  lemma StoredLayered()
    ensures Layered(StoredFamily())
  {
    forall n: nat, r: nat | IsSize(n) && r < n
      ensures Balanced(StoredFamily()(n, r), n, r % 2 == 0)
    {
      StoredBalanced(n, r);
    }
    forall n: nat, r: nat | IsSize(n) && n < 32 && r < n
      ensures Extends(StoredFamily(), n, r)
    {
      Nested(n, r);
    }
  }

  predicate MirrorAt(row: seq<int>, w: nat, k: nat, even: bool) {
    k < w <= |row| && row[w - 1 - k] == if even then row[k] else -row[k]
  }

  lemma Inherited(t: Family, n: nat, r: nat, w: nat, k: nat, even: bool)
    requires Layered(t) && IsSize(n) && n < 32 && r < n && MirrorAt(t(n, r), w, k, even)
    ensures MirrorAt(t(2 * n, 2 * r), w, k, even)
  {
    assert Extends(t, n, r);
  }

  lemma TwoColumns(t: Family, r: nat, k: nat)
    requires Layered(t) && r < 4 && r % 2 == 0 && k < 2
    ensures MirrorAt(t(4, r), 2, k, EvenMultiple(r, 2))
  {
    assert Balanced(t(4, r), 4, true);
  }

  lemma WholeRow(t: Family, n: nat, r: nat, k: nat)
    requires Layered(t) && IsSize(n) && r < n && k < n
    ensures MirrorAt(t(n, r), n, k, EvenMultiple(r, 1))
  {
    assert Balanced(t(n, r), n, r % 2 == 0);
  }

  lemma {:induction false} LayeredMirrored(t: Family, n: nat, s: nat, w: nat, r: nat, k: nat)
    requires Layered(t) && IsSize(n) && Factors(n, s, w) && r < n && Multiple(r, s) && k < w && 1 < w
    ensures MirrorAt(t(n, r), w, k, EvenMultiple(r, s))
    decreases n
  {
    if s == 1 {
      WholeRow(t, n, r, k);
    } else {
      HalfMod(r, s);
      if n > 4 {
        var q, h := r / 2, s / 2;
        LayeredMirrored(t, n / 2, h, w, q, k);
        Inherited(t, n / 2, q, w, k, EvenMultiple(q, h));
      } else {
        TwoColumns(t, r, k);
      }
    }
  }

  /** A row that is an even multiple of s is symmetric in its first n / s columns, a row that is
      an odd multiple antisymmetric. */
  lemma EntryMirrored(n: nat, s: nat, w: nat, r: nat, k: nat)
    requires IsSize(n) && Factors(n, s, w) && r < n && r % s == 0 && k < w && 1 < w
    ensures |Stored(n, r)| == n && w <= n
    ensures Stored(n, r)[w - 1 - k] == if r % (2 * s) == 0 then Stored(n, r)[k] else -Stored(n, r)[k]
  {
    StoredLayered();
    LayeredMirrored(StoredFamily(), n, s, w, r, k);
    StoredBalanced(n, r);
  }

  /** Every coefficient is small. */
  lemma EntryBounded(n: nat, r: nat, k: nat)
    requires IsSize(n) && r < n && k < n
    ensures |Stored(n, r)| == n && -90 <= Stored(n, r)[k] <= 90
  {
    StoredBalanced(n, r);
  }

  function Rows(t: Family, n: nat): (g: seq<seq<int>>)
    requires IsSize(n) && Layered(t)
    ensures Square(g, n) && forall r | 0 <= r < n :: g[r] == t(n, r)
  {
    seq(n, r requires 0 <= r < n => t(n, r))
  }

  function Table(n: nat): (g: seq<seq<int>>)
    requires IsSize(n)
    ensures Square(g, n)
  {
    StoredLayered();
    Rows(StoredFamily(), n)
  }

  ghost predicate IsTransform(g: seq<seq<int>>, n: nat)
    requires IsSize(n)
  {
    Square(g, n) && Bounded(g, n) && forall s: nat, w: nat | Factors(n, s, w) && 1 < w :: Mirrored(g, s, w)
  }

  lemma LayeredIsTransform(t: Family, n: nat)
    requires Layered(t) && IsSize(n)
    ensures IsTransform(Rows(t, n), n)
  {
    var g := Rows(t, n);
    forall s: nat, w: nat | Factors(n, s, w) && 1 < w
      ensures Mirrored(g, s, w)
    {
      forall r, k | 0 <= r < n && r % s == 0 && 0 <= k < w
        ensures g[r][w - 1 - k] == if r % (2 * s) == 0 then g[r][k] else -g[r][k]
      {
        LayeredMirrored(t, n, s, w, r, k);
        assert Balanced(t(n, r), n, r % 2 == 0);
      }
    }
    forall r, k | 0 <= r < n && 0 <= k < n
      ensures -90 <= g[r][k] <= 90
    {
      assert Balanced(t(n, r), n, r % 2 == 0);
    }
  }

  /** Table(n) has every symmetry the n-point butterfly uses and small coefficients. */
  lemma TableIsTransform(n: nat)
    requires IsSize(n)
    ensures IsTransform(Table(n), n)
  {
    StoredLayered();
    LayeredIsTransform(StoredFamily(), n);
  }

  /** Log2 of a block size. */
  function Levels(n: nat): (m: nat)
    requires IsSize(n)
    ensures Pow2(m) == n
  {
    assert Pow2(2) == 4;
    assert Pow2(5) == 32;
    if n == 4 then 2 else if n == 8 then 3 else if n == 16 then 4 else 5
  }

  lemma TransformIsHierarchical(g: seq<seq<int>>, n: nat)
    requires IsSize(n) && IsTransform(g, n)
    ensures Hierarchical(g, Levels(n))
  {
    var m := Levels(n);
    forall j | 0 <= j < m
      ensures Mirrored(g, Pow2(j), Pow2(m - j))
    {
      assert Factors(n, Pow2(j), Pow2(m - j)) && 1 < Pow2(m - j) by { PowFactors(n, j); }
    }
  }

  lemma PowFactors(n: nat, j: nat)
    requires IsSize(n) && j < Levels(n)
    ensures Factors(n, Pow2(j), Pow2(Levels(n) - j)) && 1 < Pow2(Levels(n) - j)
  {
    assert Pow2(1) == 2 && Pow2(2) == 4 && Pow2(3) == 8 && Pow2(4) == 16 && Pow2(5) == 32;
  }

  /** On the stored matrices the recursive butterfly is the plain product. */
  lemma FastOnTables(n: nat, x: seq<int>, k: nat)
    requires IsSize(n) && |x| == n && k < n
    ensures Fast(Table(n), x, Levels(n), 0)[k] == Direct(Table(n), x, k)
  {
    TableIsTransform(n);
    TransformIsHierarchical(Table(n), n);
    FastIsDirect(Table(n), x, Levels(n), k);
  }
}
