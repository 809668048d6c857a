/** The time-to-LED render engine of the German word clock: which of the 117
    strip pixels are lit for a 12-hour hour and a minute. Each word is the set of
    strip indices that spell it. */
module Render {

  const PixelCount := 117

  // Always lit: "ES IST".
  const Es: set<nat> := {0, 1}
  const Ist: set<nat> := {3, 4, 5}
  const Base: set<nat> := Es + Ist

  /** The four corner dots for the minutes past a multiple of five, in lighting order. */
  const Dots: seq<nat> := [110, 112, 114, 116]

  // Minute words.
  const FuenfMin: set<nat> := {7, 8, 9, 10}
  const ZehnMin: set<nat> := {18, 19, 20, 21}
  const DreiMin: set<nat> := {22, 23, 24, 25}
  const Viertel: set<nat> := {26, 27, 28, 29, 30, 31, 32}
  const Vor: set<nat> := {35, 36, 37}
  const Nach: set<nat> := {38, 39, 40, 41}
  const Halb: set<nat> := {44, 45, 46, 47}

  // Hour words.
  const Zwoelf: set<nat> := {72, 73, 74, 75, 76}
  const Ein: set<nat> := {61, 62, 63}
  /** The "S" that turns "EIN" into "EINS". */
  const EinsS: nat := 60
  const Zwei: set<nat> := {62, 63, 64, 65}
  const Drei: set<nat> := {67, 68, 69, 70}
  const Vier: set<nat> := {77, 78, 79, 80}
  const Fuenf: set<nat> := {51, 52, 53, 54}
  const Sechs: set<nat> := {104, 105, 106, 107, 108}
  const Sieben: set<nat> := {55, 56, 57, 58, 59, 60}
  const Acht: set<nat> := {89, 90, 91, 92}
  const Neun: set<nat> := {81, 82, 83, 84}
  const Zehn: set<nat> := {93, 94, 95, 96}
  const Elf: set<nat> := {85, 86, 87}

  /** "UHR", lit on the full hour. */
  const Uhr: set<nat> := {99, 100, 101}

  /** The filler dots, as the cascade of `minutes % 5` cases lights them. */
  function FillerDots(minutes: nat): set<nat> {
    if minutes % 5 == 1 then {110}
    else if minutes % 5 == 2 then {110, 112}
    else if minutes % 5 == 3 then {110, 112, 114}
    else if minutes % 5 == 4 then {110, 112, 114, 116}
    else {}
  }

  /** The minute words, as the chain of `minutes < 5, < 10, ...` branches lights them. */
  function MinuteWords(minutes: nat): set<nat> {
    if minutes < 5 then {}
    else if minutes < 10 then FuenfMin + Nach
    else if minutes < 15 then ZehnMin + Nach
    else if minutes < 20 then Viertel
    else if minutes < 25 then ZehnMin + Vor + Halb
    else if minutes < 30 then FuenfMin + Vor + Halb
    else if minutes < 35 then Halb
    else if minutes < 40 then FuenfMin + Nach + Halb
    else if minutes < 45 then ZehnMin + Nach + Halb
    else if minutes < 50 then DreiMin + Viertel
    else if minutes < 55 then ZehnMin + Vor
    else FuenfMin + Vor
  }

  /** From a quarter past on, the phrase names the coming hour. */
  function DisplayedHour(hours: nat, minutes: nat): nat {
    if minutes >= 15 then (hours + 1) % 12 else hours
  }

  /** The hour word for the displayed hour; "EIN" gains its "S" from five past on. */
  function HourWords(hours: nat, minutes: nat): set<nat> {
    if hours == 0 then Zwoelf
    else if hours == 1 then (if minutes >= 5 then Ein + {EinsS} else Ein)
    else if hours == 2 then Zwei
    else if hours == 3 then Drei
    else if hours == 4 then Vier
    else if hours == 5 then Fuenf
    else if hours == 6 then Sechs
    else if hours == 7 then Sieben
    else if hours == 8 then Acht
    else if hours == 9 then Neun
    else if hours == 10 then Zehn
    else if hours == 11 then Elf
    else {}
  }

  function Suffix(minutes: nat): set<nat> {
    if minutes < 5 then Uhr else {}
  }

  /** Every pixel display_time lights for (hours, minutes). */
  function LitSet(hours: nat, minutes: nat): set<nat> {
    Base + FillerDots(minutes) + MinuteWords(minutes)
      + HourWords(DisplayedHour(hours, minutes), minutes) + Suffix(minutes)
  }

  /** The twelve five-minute phrases, indexed by minutes / 5. */
  function BucketWords(bucket: nat): set<nat>
    requires bucket < 12
  {
    match bucket
    case 0 => {}
    case 1 => FuenfMin + Nach
    case 2 => ZehnMin + Nach
    case 3 => Viertel
    case 4 => ZehnMin + Vor + Halb
    case 5 => FuenfMin + Vor + Halb
    case 6 => Halb
    case 7 => FuenfMin + Nach + Halb
    case 8 => ZehnMin + Nach + Halb
    case 9 => DreiMin + Viertel
    case 10 => ZehnMin + Vor
    case 11 => FuenfMin + Vor
  }

  /** The minute phrases occupy indices 6 to 49. */
  predicate InMinuteRegion(i: nat) { 6 <= i < 50 }
  /** The hour words occupy indices 50 to 109, apart from the "UHR" row. */
  predicate InHourRegion(i: nat) { 50 <= i < 110 && !(97 <= i < 104) }

  lemma FillerDotsRegion(minutes: nat)
    ensures forall i :: i in FillerDots(minutes) ==> 110 <= i < PixelCount
  {
  }

  lemma MinuteWordsRegion(minutes: nat)
    ensures forall i :: i in MinuteWords(minutes) ==> InMinuteRegion(i)
  {
    if minutes < 25 {
    } else if minutes < 45 {
    } else {
    }
  }

  lemma HourWordsRegion(hours: nat, minutes: nat)
    ensures forall i :: i in HourWords(hours, minutes) ==> InHourRegion(i)
  {
    if hours < 6 {
    } else {
    }
  }

  /** Membership in the lit set, part by part. */
  lemma LitSetParts(hours: nat, minutes: nat, i: nat)
    ensures i in LitSet(hours, minutes) <==>
      (i in Base || i in FillerDots(minutes) || i in MinuteWords(minutes)
       || i in HourWords(DisplayedHour(hours, minutes), minutes) || i in Suffix(minutes))
    ensures i < 6 ==> (i in LitSet(hours, minutes) <==> i in Base)
    ensures InMinuteRegion(i) ==> (i in LitSet(hours, minutes) <==> i in MinuteWords(minutes))
    ensures InHourRegion(i) ==> (i in LitSet(hours, minutes) <==> i in HourWords(DisplayedHour(hours, minutes), minutes))
    ensures 97 <= i < 104 ==> (i in LitSet(hours, minutes) <==> i in Suffix(minutes))
    ensures 110 <= i ==> (i in LitSet(hours, minutes) <==> i in FillerDots(minutes))
  {
    FillerDotsRegion(minutes);
    MinuteWordsRegion(minutes);
    HourWordsRegion(DisplayedHour(hours, minutes), minutes);
  }

  /** The chain of thresholds is a lookup on the five-minute bucket. */
  lemma MinuteWordsByBucket(minutes: nat)
    requires minutes < 60
    ensures MinuteWords(minutes) == BucketWords(minutes / 5)
  {
    if minutes < 30 {
    } else {
    }
  }

  /** The dots lit are the first minutes % 5 of the four, in order. */
  lemma FillerDotsPrefix(minutes: nat)
    ensures forall k :: 0 <= k < 4 ==> (Dots[k] in FillerDots(minutes) <==> k < minutes % 5)
    ensures |FillerDots(minutes)| == minutes % 5
  {
  }

  /** Every lit index is a pixel of the strip. */
  lemma {:induction false} LitSetInStrip(hours: nat, minutes: nat)
    ensures forall i :: i in LitSet(hours, minutes) ==> i < PixelCount
  {
    forall i | i in LitSet(hours, minutes) ensures i < PixelCount {
      LitSetParts(hours, minutes, i);
      FillerDotsRegion(minutes);
      MinuteWordsRegion(minutes);
      HourWordsRegion(DisplayedHour(hours, minutes), minutes);
    }
  }

  /** Within the minute region, exactly the bucket's phrase is lit. */
  lemma {:induction false} MinuteWordsPart(hours: nat, minutes: nat)
    requires minutes < 60
    ensures forall i :: InMinuteRegion(i) ==> (i in LitSet(hours, minutes) <==> i in BucketWords(minutes / 5))
  {
    MinuteWordsByBucket(minutes);
    forall i | InMinuteRegion(i)
      ensures i in LitSet(hours, minutes) <==> i in BucketWords(minutes / 5)
    {
      LitSetParts(hours, minutes, i);
    }
  }

  /** Exactly the first minutes % 5 dots are lit. */
  lemma {:induction false} DotsPart(hours: nat, minutes: nat)
    ensures forall k :: 0 <= k < 4 ==> (Dots[k] in LitSet(hours, minutes) <==> k < minutes % 5)
  {
    FillerDotsPrefix(minutes);
    forall k | 0 <= k < 4
      ensures Dots[k] in LitSet(hours, minutes) <==> k < minutes % 5
    {
      LitSetParts(hours, minutes, Dots[k]);
    }
  }

  /** "UHR" is lit exactly in the first five minutes of the hour, and "ES IST" always. */
  lemma {:induction false} FixedWordsPart(hours: nat, minutes: nat)
    ensures Base <= LitSet(hours, minutes)
    ensures forall i :: i in Uhr ==> (i in LitSet(hours, minutes) <==> minutes < 5)
  {
    forall i | i in Uhr
      ensures i in LitSet(hours, minutes) <==> minutes < 5
    {
      LitSetParts(hours, minutes, i);
    }
  }

  /** The hour part of the display: exactly the displayed hour's word, and the
      "S" of "EINS" from five past on. */
  lemma {:induction false} HourPart(hours: nat, minutes: nat)
    ensures forall i :: InHourRegion(i) ==>
      (i in LitSet(hours, minutes) <==> i in HourWords(DisplayedHour(hours, minutes), minutes))
    ensures DisplayedHour(hours, minutes) == 1 ==> (EinsS in LitSet(hours, minutes) <==> minutes >= 5)
  {
    forall i | InHourRegion(i)
      ensures i in LitSet(hours, minutes) <==> i in HourWords(DisplayedHour(hours, minutes), minutes)
    {
      LitSetParts(hours, minutes, i);
    }
    assert InHourRegion(EinsS);
  }

  /** Reads the five-minute bucket back from the minute words that are lit. */
  function ReadBucket(lit: set<nat>): nat {
    if 22 in lit then 9
    else if 26 in lit then 3
    else if 44 in lit then
      (if 35 in lit then (if 18 in lit then 4 else 5)
       else if 38 in lit then (if 18 in lit then 8 else 7)
       else 6)
    else if 35 in lit then (if 18 in lit then 10 else 11)
    else if 38 in lit then (if 18 in lit then 2 else 1)
    else 0
  }

  /** Reads the number of filler dots back. */
  function ReadDots(lit: set<nat>): nat {
    if 116 in lit then 4 else if 114 in lit then 3 else if 112 in lit then 2 else if 110 in lit then 1 else 0
  }

  /** Reads the displayed hour back from one index that only its word lights. */
  function ReadDisplayedHour(lit: set<nat>): nat {
    if 72 in lit then 0 else if 61 in lit then 1 else if 64 in lit then 2 else if 67 in lit then 3
    else if 77 in lit then 4 else if 51 in lit then 5 else if 104 in lit then 6 else if 55 in lit then 7
    else if 89 in lit then 8 else if 81 in lit then 9 else if 93 in lit then 10 else 11
  }

  /** Reads (hours, minutes) back off the face, undoing the hour carry. */
  function ReadTime(lit: set<nat>): (nat, nat) {
    var minutes := 5 * ReadBucket(lit) + ReadDots(lit);
    var shown := ReadDisplayedHour(lit);
    (if minutes >= 15 then (shown + 11) % 12 else shown, minutes)
  }

  lemma ReadBucketOfPhrase(bucket: nat)
    requires bucket < 12
    ensures ReadBucket(BucketWords(bucket)) == bucket
  {
  }

  lemma ReadDisplayedHourOfWord(hours: nat, minutes: nat)
    requires hours < 12
    ensures ReadDisplayedHour(HourWords(hours, minutes)) == hours
  {
  }

  lemma {:induction false} ReadBucketInverts(hours: nat, minutes: nat)
    requires minutes < 60
    ensures ReadBucket(LitSet(hours, minutes)) == minutes / 5
  {
    var lit, phrase := LitSet(hours, minutes), BucketWords(minutes / 5);
    MinuteWordsPart(hours, minutes);
    assert InMinuteRegion(18) && InMinuteRegion(22) && InMinuteRegion(26);
    assert InMinuteRegion(35) && InMinuteRegion(38) && InMinuteRegion(44);
    assert ReadBucket(lit) == ReadBucket(phrase);
    ReadBucketOfPhrase(minutes / 5);
  }

  lemma {:induction false} ReadDotsInverts(hours: nat, minutes: nat)
    ensures ReadDots(LitSet(hours, minutes)) == minutes % 5
  {
    DotsPart(hours, minutes);
    assert Dots[0] == 110 && Dots[1] == 112 && Dots[2] == 114 && Dots[3] == 116;
  }

  lemma {:induction false} ReadDisplayedHourInverts(hours: nat, minutes: nat)
    requires hours < 12
    ensures ReadDisplayedHour(LitSet(hours, minutes)) == DisplayedHour(hours, minutes)
  {
    var shown := DisplayedHour(hours, minutes);
    var lit, word := LitSet(hours, minutes), HourWords(shown, minutes);
    HourPart(hours, minutes);
    assert InHourRegion(72) && InHourRegion(61) && InHourRegion(64) && InHourRegion(67);
    assert InHourRegion(77) && InHourRegion(51) && InHourRegion(104) && InHourRegion(55);
    assert InHourRegion(89) && InHourRegion(81) && InHourRegion(93);
    assert ReadDisplayedHour(lit) == ReadDisplayedHour(word);
    ReadDisplayedHourOfWord(shown, minutes);
  }

  /** The face can be read back: ReadTime undoes LitSet on a 12-hour day. */
  lemma {:induction false} ReadTimeInverts(hours: nat, minutes: nat)
    requires hours < 12 && minutes < 60
    ensures ReadTime(LitSet(hours, minutes)) == (hours, minutes)
  {
    var lit := LitSet(hours, minutes);
    ReadBucketInverts(hours, minutes);
    ReadDotsInverts(hours, minutes);
    ReadDisplayedHourInverts(hours, minutes);
    assert 5 * ReadBucket(lit) + ReadDots(lit) == minutes;
    CarryUndone(hours);
  }

  lemma CarryUndone(hours: nat)
    requires hours < 12
    ensures ((hours + 1) % 12 + 11) % 12 == hours
  {
    if hours == 11 {
      assert (hours + 1) % 12 == 0;
    } else {
      assert (hours + 1) % 12 == hours + 1;
    }
  }

  /** Hence distinct times of a 12-hour day light distinct sets of pixels. */
  lemma {:induction false} LitSetInjective(h1: nat, m1: nat, h2: nat, m2: nat)
    requires h1 < 12 && m1 < 60 && h2 < 12 && m2 < 60
    requires LitSet(h1, m1) == LitSet(h2, m2)
    ensures h1 == h2 && m1 == m2
  {
    ReadTimeInverts(h1, m1);
    ReadTimeInverts(h2, m2);
  }
}
