/** The tracker's initial state: four users, user 1 active, and the
    pre-populated sample history of `generateSampleData`. Each sample date
    is the instant `new Date('yyyy-mm-dd')` denotes, midnight UTC, in
    milliseconds since the epoch, the unit of every timestamp. */
module Sample {
  import opened BmiCategory
  import opened History

  /** A sample entry: its category is computed from the BMI as listed. */
  function SampleEntry(id: string, user: int, tenths: int, date: int): (e: Entry)
    ensures e.category == Classify(e.bmi as real / 10.0)
  {
    Entry(id, user, tenths, ClassifyTenths(tenths), date)
  }

  function SampleData(): seq<Entry>
  {
    [ SampleEntry("u1e1", 1, 280, 1736899200000),  // 2025-01-15
      SampleEntry("u1e2", 1, 271, 1739577600000),  // 2025-02-15
      SampleEntry("u1e3", 1, 262, 1741996800000),  // 2025-03-15
      SampleEntry("u1e4", 1, 255, 1744675200000),  // 2025-04-15
      SampleEntry("u1e5", 1, 248, 1747267200000),  // 2025-05-15
      SampleEntry("u2e1", 2, 225, 1737331200000),  // 2025-01-20
      SampleEntry("u2e2", 2, 228, 1740009600000),  // 2025-02-20
      SampleEntry("u2e3", 2, 226, 1742428800000),  // 2025-03-20
      SampleEntry("u2e4", 2, 230, 1745107200000),  // 2025-04-20
      SampleEntry("u2e5", 2, 229, 1747699200000),  // 2025-05-20
      SampleEntry("u3e1", 3, 179, 1736467200000),  // 2025-01-10
      SampleEntry("u3e2", 3, 182, 1739145600000),  // 2025-02-10
      SampleEntry("u3e3", 3, 186, 1741564800000),  // 2025-03-10
      SampleEntry("u3e4", 3, 190, 1744243200000),  // 2025-04-10
      SampleEntry("u3e5", 3, 195, 1746835200000),  // 2025-05-10
      SampleEntry("u4e1", 4, 245, 1737763200000),  // 2025-01-25
      SampleEntry("u4e2", 4, 252, 1740441600000),  // 2025-02-25
      SampleEntry("u4e3", 4, 248, 1742860800000),  // 2025-03-25
      SampleEntry("u4e4", 4, 255, 1745539200000),  // 2025-04-25
      SampleEntry("u4e5", 4, 250, 1748131200000) ] // 2025-05-25
  }

  /** Every sample label is the label of the entry's stored tenths. */
  lemma SampleLabelsFromTenths()
    ensures |SampleData()| == 20
    ensures forall i :: 0 <= i < 20 ==> SampleData()[i].category == ClassifyTenths(SampleData()[i].bmi)
  {
  }

  lemma SampleLabelsUsers12()
    ensures |SampleData()| == 20
    ensures SampleData()[0].category == Overweight && SampleData()[3].category == Overweight
    ensures SampleData()[4].category == Normal
    ensures forall i :: 5 <= i < 10 ==> SampleData()[i].category == Normal
  {
    var h := SampleData();
    SampleLabelsFromTenths();
    assert h[0].bmi == 280 && h[3].bmi == 255 && h[4].bmi == 248;
    assert forall i :: 5 <= i < 10 ==> 225 <= h[i].bmi <= 230;
  }

  lemma SampleLabelsUsers34()
    ensures |SampleData()| == 20
    ensures SampleData()[10].category == Underweight && SampleData()[11].category == Underweight
    ensures SampleData()[12].category == Normal
    ensures SampleData()[15].category == Normal && SampleData()[16].category == Overweight
    ensures SampleData()[17].category == Normal && SampleData()[19].category == Overweight
  {
    var h := SampleData();
    SampleLabelsFromTenths();
    assert h[10].bmi == 179 && h[11].bmi == 182 && h[12].bmi == 186;
    assert h[15].bmi == 245 && h[16].bmi == 252 && h[17].bmi == 248 && h[19].bmi == 250;
  }

  /** The labels of the sample entries, user by user: user 1 goes from
      Overweight down to Normal, user 2 stays Normal, user 3 climbs from
      Underweight to Normal, and user 4 moves between Normal and Overweight,
      with 25.0 labelled Overweight. */
  lemma SampleLabels()
    ensures |SampleData()| == 20
    ensures SampleData()[0].category == Overweight && SampleData()[3].category == Overweight
    ensures SampleData()[4].category == Normal
    ensures forall i :: 5 <= i < 10 ==> SampleData()[i].category == Normal
    ensures SampleData()[10].category == Underweight && SampleData()[11].category == Underweight
    ensures SampleData()[12].category == Normal
    ensures SampleData()[15].category == Normal && SampleData()[16].category == Overweight
    ensures SampleData()[17].category == Normal && SampleData()[19].category == Overweight
  {
    SampleLabelsUsers12();
    SampleLabelsUsers34();
  }

  /** The state before any interaction. */
  function InitialState(): State
  {
    State(4, 1, SampleData(), None, NoNotice)
  }

  /** The five entries of user `u` stand at positions `5 * u - 5` to
      `5 * u - 1`, and the id of each names `u` and the entry's place among
      them, counting from 1. */
  predicate UserBlock(h: seq<Entry>, u: int)
  {
    forall i :: 5 * u - 5 <= i < 5 * u && 0 <= i < |h| ==>
      && h[i].user == u
      && |h[i].id| == 4
      && h[i].id[1] as int - '0' as int == u
      && h[i].id[3] as int - '0' as int == i - 5 * u + 6
  }

  lemma SampleBlock1()
    ensures UserBlock(SampleData(), 1)
  {
  }

  lemma SampleBlock2()
    ensures UserBlock(SampleData(), 2)
  {
  }

  lemma SampleBlock3()
    ensures UserBlock(SampleData(), 3)
  {
  }

  lemma SampleBlock4()
    ensures UserBlock(SampleData(), 4)
  {
  }

  /** The initial state is valid: its 20 entries belong to users 1 to 4
      and carry distinct ids. */
  lemma InitialStateValid()
    ensures Valid(InitialState())
    ensures |InitialState().history| == 20
  {
    var h := SampleData();
    SampleBlock1();
    SampleBlock2();
    SampleBlock3();
    SampleBlock4();
    assert |h| == 20;
  }
}
