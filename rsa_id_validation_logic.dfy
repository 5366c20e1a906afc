/** The South African identity-number validator (the static class
    `RsaIdValidationLogic`): four decoders over fixed-width fields of a
    13-digit string, and `ValidateIdNumber`, which gates the string, checks
    the birth date, cross-checks the facts a caller already knows about the
    holder and runs the Luhn checksum. The wall clock the source reads is the
    explicit parameter `now`. */
module RsaIdValidationLogic {
  import opened Wrappers
  import opened Decimal
  import opened Calendar
  import opened LuhnChecksum

  const IdNumberLength := 13

  /** The mean Gregorian year, 365.2425 days, in milliseconds. */
  const MillisecondsInAYear := 31556952000

  /** A reading of the local wall clock: today's date and the milliseconds
      since local midnight. */
  datatype Clock = Clock(today: Date, msOfDay: int)

  /** A clock reading the source can see: a real date in a four-digit year. */
  predicate ValidClock(now: Clock) {
    ValidDate(now.today) && 1000 <= now.today.year <= 9999 && 0 <= now.msOfDay < MsPerDay
  }

  /** The last two digits of the current year, as the source takes them from
      the year's decimal text (characters 2 and 3). */
  function CurrentTwoDigitYear(now: Clock): (yy: int)
    requires ValidClock(now)
    ensures 0 <= yy <= 99
  {
    now.today.year % 100
  }

  /** The two-digit current year is indeed characters 2..3 of the year's
      decimal text, read as a number. */
  lemma CurrentTwoDigitYearIsYearText(now: Clock)
    requires ValidClock(now)
    ensures CurrentTwoDigitYear(now) == NumberValue(ToDecimalString(now.today.year)[2..4])
  {
    var y := now.today.year;
    var tail := [DigitChar(y / 10 % 10), DigitChar(y % 10)];
    LastTwoDigitsText(y);
    TwoDigitText(y / 100);
    assert ToDecimalString(y)[2..4] == tail;
    ShortNumberValue(tail);
    TensAndUnits(y);
  }

  /** `new Date().getTime()`: an instant within today's local day. */
  function NowMs(now: Clock): (t: int)
    requires ValidClock(now)
    ensures EpochMs(now.today) <= t < EpochMs(now.today) + MsPerDay
  {
    EpochMs(now.today) + now.msOfDay
  }

  /** The structural gate: exactly 13 characters, each an ASCII digit. */
  predicate WellFormed(id: string) {
    |id| == IdNumberLength && AllDigits(id)
  }

  /** The fields of a well-formed identity number as digit arithmetic. */
  lemma FieldValues(id: string)
    requires WellFormed(id)
    ensures NumberValue(id[0..2]) == 10 * DigitValue(id[0]) + DigitValue(id[1])
    ensures NumberValue(id[2..4]) == 10 * DigitValue(id[2]) + DigitValue(id[3])
    ensures NumberValue(id[4..6]) == 10 * DigitValue(id[4]) + DigitValue(id[5])
    ensures NumberValue(id[6..10]) ==
      1000 * DigitValue(id[6]) + 100 * DigitValue(id[7]) + 10 * DigitValue(id[8]) + DigitValue(id[9])
    ensures NumberValue(id[10..11]) == DigitValue(id[10])
  {
    ShortNumberValue(id[0..2]);
    ShortNumberValue(id[2..4]);
    ShortNumberValue(id[4..6]);
    ShortNumberValue(id[6..10]);
    ShortNumberValue(id[10..11]);
  }

  // ---------------------------------------------------------------------
  // Date of birth
  // ---------------------------------------------------------------------

  /** The century pivot: a two-digit year up to the current two-digit year is
      in the 2000s, any later one in the 1900s. */
  function BirthYear(yy: int, currentYy: int): (y: int)
    requires 0 <= yy <= 99
    ensures y % 100 == yy && 1900 <= y <= 2099
    ensures y >= 2000 <==> yy <= currentYy
  {
    if yy <= currentYy then 2000 + yy else 1900 + yy
  }

  /** While the clock is in the 2000s the pivot picks the one year in the last
      hundred (ending with the current year) whose last two digits are `yy`. */
  lemma CenturyPivot(yy: int, currentYear: int)
    requires 0 <= yy <= 99 && 2000 <= currentYear <= 2099
    ensures var y := BirthYear(yy, currentYear % 100);
      y % 100 == yy && currentYear - 100 < y <= currentYear
    ensures forall y :: currentYear - 100 < y <= currentYear && y % 100 == yy ==>
      y == BirthYear(yy, currentYear % 100)
  {
  }

  /** `determineDateOfBirth`: year from characters 0..1 through the century
      pivot, month from 2..3, day from 4..5; `None` is the Invalid Date the
      source gets when these do not form a real calendar date. */
  function DetermineDateOfBirth(id: string, now: Clock): (dob: Option<Date>)
    requires WellFormed(id) && ValidClock(now)
    ensures dob.Some? ==> ValidDate(dob.value)
  {
    var d := Date(BirthYear(NumberValue(id[0..2]), CurrentTwoDigitYear(now)),
                  NumberValue(id[2..4]), NumberValue(id[4..6]));
    if ValidDate(d) then Some(d) else None
  }

  /** The decoded date carries the identity number's fields: the year ends in
      the two year digits and is the pivot's year (while the clock is in the
      2000s, the one such year in the hundred years ending with the current
      year), month and day are taken verbatim, and the date is missing
      exactly when month or day is out of range. */
  lemma DateOfBirthFields(id: string, now: Clock)
    requires WellFormed(id) && ValidClock(now)
    ensures var month, day := NumberValue(id[2..4]), NumberValue(id[4..6]);
      DetermineDateOfBirth(id, now).Some? <==>
        1 <= month <= 12 && 1 <= day <= DaysInMonth(2000, month)
          && !(month == 2 && day == 29 && !IsLeapYear(BirthYear(NumberValue(id[0..2]), CurrentTwoDigitYear(now))))
    ensures DetermineDateOfBirth(id, now).Some? ==>
      var d := DetermineDateOfBirth(id, now).value;
      d.year == BirthYear(NumberValue(id[0..2]), CurrentTwoDigitYear(now))
      && d.year % 100 == NumberValue(id[0..2]) && 1900 <= d.year <= 2099
      && (2000 <= now.today.year <= 2099 ==> now.today.year - 100 < d.year <= now.today.year)
      && d.month == NumberValue(id[2..4]) && d.day == NumberValue(id[4..6])
  {
    if 2000 <= now.today.year <= 2099 {
      CenturyPivot(NumberValue(id[0..2]), now.today.year);
    }
  }

  /** Two identity numbers decode to the same birth date exactly when their
      first six characters agree. */
  lemma DateOfBirthInjective(a: string, b: string, now: Clock)
    requires WellFormed(a) && WellFormed(b) && ValidClock(now)
    requires DetermineDateOfBirth(a, now).Some? && DetermineDateOfBirth(b, now).Some?
    ensures DetermineDateOfBirth(a, now) == DetermineDateOfBirth(b, now) <==> a[..6] == b[..6]
  {
    if DetermineDateOfBirth(a, now) == DetermineDateOfBirth(b, now) {
      var da := DetermineDateOfBirth(a, now).value;
      assert NumberValue(a[0..2]) == da.year % 100 == NumberValue(b[0..2]);
      NumberValueInjective(a[0..2], b[0..2]);
      NumberValueInjective(a[2..4], b[2..4]);
      NumberValueInjective(a[4..6], b[4..6]);
      assert a[..6] == a[0..2] + a[2..4] + a[4..6];
      assert b[..6] == b[0..2] + b[2..4] + b[4..6];
    }
    if a[..6] == b[..6] {
      assert a[0..2] == a[..6][0..2] && b[0..2] == b[..6][0..2];
      assert a[2..4] == a[..6][2..4] && b[2..4] == b[..6][2..4];
      assert a[4..6] == a[..6][4..6] && b[4..6] == b[..6][4..6];
    }
  }

  // ---------------------------------------------------------------------
  // Age
  // ---------------------------------------------------------------------

  /** Whole mean-Gregorian years from local midnight of `dob` to `nowMs`,
      rounded down. */
  function AgeAt(dob: Date, nowMs: int): (age: int)
    requires ValidDate(dob)
    ensures age * MillisecondsInAYear <= nowMs - EpochMs(dob) < (age + 1) * MillisecondsInAYear
  {
    (nowMs - EpochMs(dob)) / MillisecondsInAYear
  }

  /** `determineAge`: `None` is the NaN the source gets from an Invalid Date. */
  function DetermineAge(id: string, now: Clock): (age: Option<int>)
    requires WellFormed(id) && ValidClock(now)
    ensures age.Some? <==> DetermineDateOfBirth(id, now).Some?
  {
    match DetermineDateOfBirth(id, now)
    case None => None
    case Some(dob) => Some(AgeAt(dob, NowMs(now)))
  }

  /** Someone born earlier is never younger, and nobody gets younger as time
      passes. */
  lemma AgeOrder(a: Date, b: Date, t: int, u: int)
    requires ValidDate(a) && ValidDate(b) && (a == b || Before(a, b)) && t <= u
    ensures AgeAt(b, t) <= AgeAt(a, u)
  {
    if a != b {
      EpochDayAscends(a, b);
    }
  }

  /** Age is zero or more from the holder's birth date on. */
  lemma AgeNotNegativeAfterBirth(dob: Date, nowMs: int)
    requires ValidDate(dob) && EpochMs(dob) <= nowMs
    ensures AgeAt(dob, nowMs) >= 0
  {
  }

  // ---------------------------------------------------------------------
  // Gender and citizenship
  // ---------------------------------------------------------------------

  datatype Gender = Female | Male

  /** The string `determineGender` returns. */
  function GenderName(g: Gender): (name: string)
    ensures |name| >= 1
  {
    match g
    case Female => "female"
    case Male => "male"
  }

  /** `determineGender`: female when characters 6..9 denote a number below
      5000, that is exactly when the leading digit of the code is 0 to 4. */
  function DetermineGender(id: string): (g: Gender)
    requires WellFormed(id)
    ensures g == Female <==> DigitValue(id[6]) <= 4
  {
    var code := id[6..10];
    LeadingDigit(code);
    assert Pow10(3) == 1000;
    assert code[0] == id[6];
    if NumberValue(code) < 5000 then Female else Male
  }

  /** `determineIsCitizen`: character 10 denotes the number 0, which only the
      digit `0` does. */
  function DetermineIsCitizen(id: string): (citizen: bool)
    requires WellFormed(id)
    ensures citizen <==> id[10] == '0'
  {
    var c := id[10..11];
    assert c[..0] == [];
    assert NumberValue(c) == DigitValue(id[10]);
    NumberValue(c) == 0
  }

  // ---------------------------------------------------------------------
  // Known holder info
  // ---------------------------------------------------------------------

  /** What a caller may already know about the holder; `None` is a property
      that is `null` or `undefined`. The date of birth is a `Date`'s
      `getTime()` in local milliseconds. */
  datatype KnownInfo = KnownInfo(
    dateOfBirth: Option<int>,
    age: Option<int>,
    gender: Option<string>,
    isCitizen: Option<bool>)

  const NothingKnown := KnownInfo(None, None, None, None)

  /** `toLowerCase` on ASCII: an upper-case letter becomes its lower-case
      partner, every other character stays as it is. */
  function LowerCaseAscii(c: char): (l: char)
    ensures !('A' <= l <= 'Z')
    ensures 'A' <= c <= 'Z' ==> l as int == c as int + 32 && 'a' <= l <= 'z'
    ensures !('A' <= c <= 'Z') ==> l == c
  {
    if 'A' <= c <= 'Z' then (c as int + 32) as char else c
  }

  /** A supplied date of birth must be the same instant. */
  predicate DateOfBirthFactHolds(fact: Option<int>, dob: Date)
    requires ValidDate(dob)
  {
    fact.None? || fact.value == EpochMs(dob)
  }

  /** A supplied age other than 0 must equal the decoded age. */
  predicate AgeFactHolds(fact: Option<int>, age: int) {
    fact.None? || fact.value == 0 || fact.value == age
  }

  /** A supplied non-empty gender must agree in its first letter, ignoring case. */
  predicate GenderFactHolds(fact: Option<string>, gender: Gender) {
    fact.None? || fact.value == [] || LowerCaseAscii(fact.value[0]) == LowerCaseAscii(GenderName(gender)[0])
  }

  /** A supplied citizenship flag, `false` included, must equal the decoded one. */
  predicate CitizenFactHolds(fact: Option<bool>, isCitizen: bool) {
    fact.None? || fact.value == isCitizen
  }

  /** The gender comparison ignores case: a non-empty supplied gender agrees
      exactly when it starts with `f` or `F` for a woman, `m` or `M` for a man. */
  lemma GenderFactIgnoresCase(s: string, g: Gender)
    requires |s| >= 1
    ensures GenderFactHolds(Some(s), g)
        <==> (g == Female && (s[0] == 'f' || s[0] == 'F')) || (g == Male && (s[0] == 'm' || s[0] == 'M'))
  {
  }

  /** Every supplied fact agrees with what the identity number encodes. */
  predicate MatchesKnownInfo(id: string, info: KnownInfo, now: Clock)
    requires WellFormed(id) && ValidClock(now) && DetermineDateOfBirth(id, now).Some?
  {
    var dob := DetermineDateOfBirth(id, now).value;
    DateOfBirthFactHolds(info.dateOfBirth, dob)
    && AgeFactHolds(info.age, AgeAt(dob, NowMs(now)))
    && GenderFactHolds(info.gender, DetermineGender(id))
    && CitizenFactHolds(info.isCitizen, DetermineIsCitizen(id))
  }

  /** `more` supplies every fact `fewer` supplies, with the same value. */
  predicate KnowsAtLeast(more: KnownInfo, fewer: KnownInfo) {
    (fewer.dateOfBirth.Some? ==> more.dateOfBirth == fewer.dateOfBirth)
    && (fewer.age.Some? ==> more.age == fewer.age)
    && (fewer.gender.Some? ==> more.gender == fewer.gender)
    && (fewer.isCitizen.Some? ==> more.isCitizen == fewer.isCitizen)
  }

  // ---------------------------------------------------------------------
  // Validation
  // ---------------------------------------------------------------------

  /** What `validateIdNumber` decides: the structural gate, a real birth date,
      agreement with whatever is known about the holder, and a Luhn checksum
      divisible by 10. */
  predicate IsValidIdNumber(id: string, known: Option<KnownInfo>, now: Clock)
    requires ValidClock(now)
  {
    WellFormed(id)
    && DetermineDateOfBirth(id, now).Some?
    && (known.Some? ==> MatchesKnownInfo(id, known.value, now))
    && CheckSum(id, IdNumberLength) % 10 == 0
  }

  /** `validateIdNumber`, with its early returns and its checksum loop. */
  method ValidateIdNumber(idNumber: string, idNumberHolderKnownInfo: Option<KnownInfo>, now: Clock)
    returns (valid: bool)
    requires ValidClock(now)
    ensures valid == IsValidIdNumber(idNumber, idNumberHolderKnownInfo, now)
    ensures |idNumber| != IdNumberLength || !AllDigits(idNumber) ==> !valid
    ensures valid ==> DetermineDateOfBirth(idNumber, now).Some?
    ensures valid ==> CheckSum(idNumber, IdNumberLength) % 10 == 0
  {
    if |idNumber| != IdNumberLength || !AllDigits(idNumber) {
      return false;
    }

    var dateOfBirth := DetermineDateOfBirth(idNumber, now);
    if dateOfBirth.None? {
      return false;
    }

    if idNumberHolderKnownInfo.Some? {
      var known := idNumberHolderKnownInfo.value;
      if known.dateOfBirth.Some? && known.dateOfBirth.value != EpochMs(dateOfBirth.value) {
        assert !DateOfBirthFactHolds(known.dateOfBirth, dateOfBirth.value);
        return false;
      }
      if known.age.Some? && known.age.value != 0 {
        var age := DetermineAge(idNumber, now);
        if known.age != age {
          assert !AgeFactHolds(known.age, AgeAt(dateOfBirth.value, NowMs(now)));
          return false;
        }
      }
      if known.gender.Some? && known.gender.value != [] {
        var gender := GenderName(DetermineGender(idNumber));
        if LowerCaseAscii(known.gender.value[0]) != LowerCaseAscii(gender[0]) {
          assert !GenderFactHolds(known.gender, DetermineGender(idNumber));
          return false;
        }
      }
      if known.isCitizen.Some? {
        var isCitizen := DetermineIsCitizen(idNumber);
        if known.isCitizen.value != isCitizen {
          assert !CitizenFactHolds(known.isCitizen, DetermineIsCitizen(idNumber));
          return false;
        }
      }
    }

    assert idNumberHolderKnownInfo.Some? ==> MatchesKnownInfo(idNumber, idNumberHolderKnownInfo.value, now);

    var checkSum := ComputeCheckSum(idNumber);
    return checkSum % 10 == 0;
  }

  /** The checksum loop of `validateIdNumber`: multiplier 1 and 2 in turn,
      a two-digit product replaced by the sum of its digits. */
  method ComputeCheckSum(idNumber: string) returns (checkSum: int)
    requires WellFormed(idNumber)
    ensures checkSum == CheckSum(idNumber, IdNumberLength)
    ensures 0 <= checkSum <= 9 * IdNumberLength
  {
    var tempTotal := 0;
    checkSum := 0;
    var multiplier := 1;
    for i := 0 to IdNumberLength
      invariant multiplier == Multiplier(i)
      invariant checkSum == CheckSum(idNumber, i)
    {
      var digit := DigitValue(idNumber[i]);
      tempTotal := digit * multiplier;
      assert tempTotal == if multiplier == 1 then digit else 2 * digit;
      LuhnTermIsDigitSum(digit, multiplier);
      if tempTotal > 9 {
        tempTotal := DigitSumOfProduct(tempTotal);
      }
      assert tempTotal == LuhnTerm(digit, Multiplier(i));
      checkSum := checkSum + tempTotal;
      multiplier := if multiplier % 2 == 0 then 1 else 2;
    }
  }

  /** A passing number agrees with every fact supplied with it: the same
      birth instant, the same age unless the age given is 0, a gender whose
      first letter is `f` or `m` in either case and names the decoded gender,
      and the citizenship digit `0` exactly when citizenship is claimed. */
  lemma ValidMeansFactsHold(id: string, info: KnownInfo, now: Clock)
    requires ValidClock(now) && IsValidIdNumber(id, Some(info), now)
    ensures info.dateOfBirth.Some? ==>
      info.dateOfBirth.value == EpochMs(DetermineDateOfBirth(id, now).value)
    ensures info.age.Some? && info.age.value != 0 ==> DetermineAge(id, now) == info.age
    ensures info.gender.Some? && info.gender.value != [] ==>
      var initial := LowerCaseAscii(info.gender.value[0]);
      (initial == 'f' || initial == 'm')
      && (DetermineGender(id) == Female <==> initial == 'f')
    ensures info.isCitizen.Some? ==> (info.isCitizen.value <==> id[10] == '0')
  {
  }

  /** Facts are AND-ed: supplying more of them can turn a pass into a
      failure but never a failure into a pass, and supplying none at all
      is the weakest case. */
  lemma MoreFactsNeverRescue(id: string, more: KnownInfo, fewer: KnownInfo, now: Clock)
    requires ValidClock(now) && KnowsAtLeast(more, fewer)
    ensures IsValidIdNumber(id, Some(more), now) ==> IsValidIdNumber(id, Some(fewer), now)
    ensures IsValidIdNumber(id, Some(fewer), now) ==> IsValidIdNumber(id, None, now)
  {
  }

  /** The facts the source skips: a missing info object is the same as one
      with nothing in it, age 0 is the same as no age, and an empty gender is
      the same as no gender. */
  lemma SkippedFacts(id: string, info: KnownInfo, now: Clock)
    requires ValidClock(now)
    ensures IsValidIdNumber(id, None, now) == IsValidIdNumber(id, Some(NothingKnown), now)
    ensures IsValidIdNumber(id, Some(info.(age := Some(0))), now)
         == IsValidIdNumber(id, Some(info.(age := None)), now)
    ensures IsValidIdNumber(id, Some(info.(gender := Some([]))), now)
         == IsValidIdNumber(id, Some(info.(gender := None)), now)
  {
  }

  /** `isCitizen: false` is a real constraint: it rejects every number whose
      citizenship digit is `0`. */
  lemma CitizenFalseRejectsCitizens(id: string, info: KnownInfo, now: Clock)
    requires ValidClock(now) && WellFormed(id) && id[10] == '0' && info.isCitizen == Some(false)
    ensures !IsValidIdNumber(id, Some(info), now)
  {
  }

  /** A known date of birth given as a local midnight matches exactly when it
      is the decoded calendar date. */
  lemma KnownDateOfBirthIsCalendarDate(id: string, d: Date, now: Clock)
    requires ValidClock(now) && WellFormed(id) && ValidDate(d)
    requires DetermineDateOfBirth(id, now).Some?
    ensures DateOfBirthFactHolds(Some(EpochMs(d)), DetermineDateOfBirth(id, now).value)
        <==> d == DetermineDateOfBirth(id, now).value
  {
    EpochDayInjective(d, DetermineDateOfBirth(id, now).value);
  }

  // ---------------------------------------------------------------------
  // The year text of the birth date
  // ---------------------------------------------------------------------

  /** The year text of `determineDateOfBirth` as the code is written: the
      conditional binds tighter than intended, so a year in the 2000s becomes
      the bare text "20" and only the 1900s get their two year digits. */
  function BirthYearTextAsWritten(id: string, now: Clock): (text: string)
    requires WellFormed(id) && ValidClock(now)
    ensures NumberValue(id[0..2]) <= CurrentTwoDigitYear(now) ==> |text| == 2
  {
    if NumberValue(id[0..2]) <= CurrentTwoDigitYear(now) then "20" else "19" + id[0..2]
  }

  /** As written, every birth year in the 2000s gives the same text, so the
      year digits of the identity number are lost. */
  lemma AsWrittenLosesYearDigits(a: string, b: string, now: Clock)
    requires WellFormed(a) && WellFormed(b) && ValidClock(now)
    requires NumberValue(a[0..2]) <= CurrentTwoDigitYear(now)
    requires NumberValue(b[0..2]) <= CurrentTwoDigitYear(now)
    ensures BirthYearTextAsWritten(a, now) == BirthYearTextAsWritten(b, now)
    ensures a[0..2] != b[0..2] ==>
      BirthYear(NumberValue(a[0..2]), CurrentTwoDigitYear(now))
        != BirthYear(NumberValue(b[0..2]), CurrentTwoDigitYear(now))
  {
  }

  /** The year text as intended: the century prefix followed by the two year
      digits, a four-digit year that is the pivot's birth year. */
  function BirthYearText(id: string, now: Clock): (text: string)
    requires WellFormed(id) && ValidClock(now)
    ensures |text| == 4 && AllDigits(text) && text[2..] == id[0..2]
    ensures NumberValue(text) == BirthYear(NumberValue(id[0..2]), CurrentTwoDigitYear(now))
  {
    var century := if NumberValue(id[0..2]) <= CurrentTwoDigitYear(now) then "20" else "19";
    var text := century + id[0..2];
    NumberValueAppend(century, id[0..2]);
    assert NumberValue(century) == if century == "20" then 20 else 19 by {
      assert century[..1] == [century[0]];
    }
    text
  }
}
