/** The enumerations of models/enums.py with their string values. */
module Enums {
  import opened Basics

  datatype Gender = Male | Female

  /** The value of a `Gender` member. */
  function GenderValue(g: Gender): string {
    match g
    case Male => "MALE"
    case Female => "FEMALE"
  }

  /** `Gender(s)`: the member whose value is `s`; `None` where Python raises ValueError. */
  function GenderOf(s: string): (r: Option<Gender>)
    ensures r.Some? <==> s in {"MALE", "FEMALE"}
    ensures r.Some? ==> GenderValue(r.value) == s
  {
    if s == "MALE" then Some(Male)
    else if s == "FEMALE" then Some(Female)
    else None
  }

  datatype Faculty = ComputerScience | Language | Economic

  /** The value of a `Faculty` member. */
  function FacultyValue(f: Faculty): string {
    match f
    case ComputerScience => "COMPUTER_SCIENCE"
    case Language => "LANGUAGE"
    case Economic => "FACULTY OF ECONOMIC"
  }

  /** `Faculty(s)`: the member whose value is `s`. */
  function FacultyOf(s: string): (r: Option<Faculty>)
    ensures r.Some? <==> s in {"COMPUTER_SCIENCE", "LANGUAGE", "FACULTY OF ECONOMIC"}
    ensures r.Some? ==> FacultyValue(r.value) == s
  {
    if s == "COMPUTER_SCIENCE" then Some(ComputerScience)
    else if s == "LANGUAGE" then Some(Language)
    else if s == "FACULTY OF ECONOMIC" then Some(Economic)
    else None
  }

  /** The ten teaching slots of a day, in their declared order. */
  datatype TimeBlock =
    | Block1 | Block2 | Block3 | Block4 | Block5
    | Block6 | Block7 | Block8 | Block9 | Block10

  const AllTimeBlocks: seq<TimeBlock> :=
    [Block1, Block2, Block3, Block4, Block5, Block6, Block7, Block8, Block9, Block10]

  /** The value of a `TimeBlock` member: "BLOCK_1" .. "BLOCK_10". */
  function TimeBlockValue(b: TimeBlock): string {
    match b
    case Block1 => "BLOCK_1"
    case Block2 => "BLOCK_2"
    case Block3 => "BLOCK_3"
    case Block4 => "BLOCK_4"
    case Block5 => "BLOCK_5"
    case Block6 => "BLOCK_6"
    case Block7 => "BLOCK_7"
    case Block8 => "BLOCK_8"
    case Block9 => "BLOCK_9"
    case Block10 => "BLOCK_10"
  }

  /** Position of a member in the declaration, 1 for `block1` up to 10 for `block10`. */
  function Ordinal(b: TimeBlock): (n: nat)
    ensures 1 <= n <= 10 && AllTimeBlocks[n - 1] == b
  {
    match b
    case Block1 => 1
    case Block2 => 2
    case Block3 => 3
    case Block4 => 4
    case Block5 => 5
    case Block6 => 6
    case Block7 => 7
    case Block8 => 8
    case Block9 => 9
    case Block10 => 10
  }

  /** `TimeBlock(s)`: the member whose value is `s`, found by scanning the members in order. */
  function TimeBlockOf(s: string): (r: Option<TimeBlock>)
    ensures r.Some? ==> TimeBlockValue(r.value) == s
    ensures r.None? ==> forall b :: TimeBlockValue(b) != s
  {
    FirstWithValue(AllTimeBlocks, s)
  }

  /** The first member of `bs` whose value is `s`. */
  function FirstWithValue(bs: seq<TimeBlock>, s: string): (r: Option<TimeBlock>)
    ensures r.Some? ==> r.value in bs && TimeBlockValue(r.value) == s
    ensures r.None? ==> forall b :: b in bs ==> TimeBlockValue(b) != s
  {
    if bs == [] then None
    else if TimeBlockValue(bs[0]) == s then Some(bs[0])
    else FirstWithValue(bs[1..], s)
  }

  /** There are exactly ten members and every member is listed once. */
  lemma TimeBlockCount()
    ensures |AllTimeBlocks| == 10
    ensures forall b :: b in AllTimeBlocks
    ensures forall i, j :: 0 <= i < j < |AllTimeBlocks| ==> AllTimeBlocks[i] != AllTimeBlocks[j]
  {
    forall b ensures b in AllTimeBlocks {
      assert AllTimeBlocks[Ordinal(b) - 1] == b;
    }
  }

  /** The ten values are pairwise distinct, so a member survives the trip to its value and back. */
  lemma TimeBlockRoundTrip(b: TimeBlock)
    ensures TimeBlockOf(TimeBlockValue(b)) == Some(b)
  {
    var r := TimeBlockOf(TimeBlockValue(b));
    assert TimeBlockValue(b) in {"BLOCK_1", "BLOCK_2", "BLOCK_3", "BLOCK_4", "BLOCK_5",
                                 "BLOCK_6", "BLOCK_7", "BLOCK_8", "BLOCK_9", "BLOCK_10"};
    assert r.Some?;
    assert TimeBlockValue(r.value) == TimeBlockValue(b);
  }

  /** Distinct members have distinct values. */
  lemma TimeBlockValueInjective(a: TimeBlock, b: TimeBlock)
    requires TimeBlockValue(a) == TimeBlockValue(b)
    ensures a == b
  {
    TimeBlockRoundTrip(a);
    TimeBlockRoundTrip(b);
  }

  /** Both genders round-trip through their values, and the two values differ. */
  lemma GenderRoundTrip(g: Gender)
    ensures GenderOf(GenderValue(g)) == Some(g)
    ensures GenderValue(Male) != GenderValue(Female)
  {
  }

  /** The three faculty values are distinct and round-trip. */
  lemma FacultyRoundTrip(f: Faculty)
    ensures FacultyOf(FacultyValue(f)) == Some(f)
    ensures FacultyValue(Economic) == "FACULTY OF ECONOMIC"
    ensures FacultyValue(ComputerScience) != FacultyValue(Language)
    ensures FacultyValue(ComputerScience) != FacultyValue(Economic)
    ensures FacultyValue(Language) != FacultyValue(Economic)
  {
  }
}
