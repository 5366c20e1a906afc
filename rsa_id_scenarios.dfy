/** The concrete cases the validator's own tests pin down, stated over the
    model with the clock fixed at local midnight of 2018-03-30. */
module RsaIdScenarios {
  import opened Wrappers
  import opened Decimal
  import opened Calendar
  import opened LuhnChecksum
  import opened RsaIdValidationLogic

  const TestNow := Clock(Date(2018, 3, 30), 0)

  /** The checksum term the validator adds at position `i`. */
  function TermAt(s: string, i: nat): int
    requires i < |s| && AllDigits(s)
  {
    LuhnTerm(DigitValue(s[i]), Multiplier(i))
  }

  /** The checksum of a 13-digit string as its thirteen terms. */
  lemma CheckSumSpelled(s: string)
    requires WellFormed(s)
    ensures CheckSum(s, 13) == TermAt(s, 0) + TermAt(s, 1) + TermAt(s, 2) + TermAt(s, 3) + TermAt(s, 4)
      + TermAt(s, 5) + TermAt(s, 6) + TermAt(s, 7) + TermAt(s, 8) + TermAt(s, 9) + TermAt(s, 10)
      + TermAt(s, 11) + TermAt(s, 12)
  {
    assert CheckSum(s, 1) == TermAt(s, 0);
    assert CheckSum(s, 2) == CheckSum(s, 1) + TermAt(s, 1);
    assert CheckSum(s, 3) == CheckSum(s, 2) + TermAt(s, 2);
    assert CheckSum(s, 4) == CheckSum(s, 3) + TermAt(s, 3);
    assert CheckSum(s, 5) == CheckSum(s, 4) + TermAt(s, 4);
    assert CheckSum(s, 6) == CheckSum(s, 5) + TermAt(s, 5);
    assert CheckSum(s, 7) == CheckSum(s, 6) + TermAt(s, 6);
    assert CheckSum(s, 8) == CheckSum(s, 7) + TermAt(s, 7);
    assert CheckSum(s, 9) == CheckSum(s, 8) + TermAt(s, 8);
    assert CheckSum(s, 10) == CheckSum(s, 9) + TermAt(s, 9);
    assert CheckSum(s, 11) == CheckSum(s, 10) + TermAt(s, 10);
    assert CheckSum(s, 12) == CheckSum(s, 11) + TermAt(s, 11);
  }

  /** The Luhn term of one digit product, written out. */
  function Folded(p: int): int {
    if p > 9 then p - 9 else p
  }

  // The identity number spelled `c0` ... `c12`, decoded at the test clock as
  // arithmetic on its digits, one decoder per lemma.

  lemma SpelledDateOfBirth(c0: char, c1: char, c2: char, c3: char, c4: char, c5: char, c6: char,
    c7: char, c8: char, c9: char, c10: char, c11: char, c12: char)
    requires IsDigit(c0) && IsDigit(c1) && IsDigit(c2) && IsDigit(c3) && IsDigit(c4)
    requires IsDigit(c5) && IsDigit(c6) && IsDigit(c7) && IsDigit(c8) && IsDigit(c9)
    requires IsDigit(c10) && IsDigit(c11) && IsDigit(c12)
    ensures var id := [c0, c1, c2, c3, c4, c5, c6, c7, c8, c9, c10, c11, c12];
      WellFormed(id)
      && DetermineDateOfBirth(id, TestNow) ==
        (var d := Date(BirthYear(10 * DigitValue(c0) + DigitValue(c1), 18),
                       10 * DigitValue(c2) + DigitValue(c3), 10 * DigitValue(c4) + DigitValue(c5));
         if ValidDate(d) then Some(d) else None)
  {
    var id := [c0, c1, c2, c3, c4, c5, c6, c7, c8, c9, c10, c11, c12];
    assert WellFormed(id);
    FieldValues(id);
  }

  lemma SpelledGender(c0: char, c1: char, c2: char, c3: char, c4: char, c5: char, c6: char,
    c7: char, c8: char, c9: char, c10: char, c11: char, c12: char)
    requires IsDigit(c0) && IsDigit(c1) && IsDigit(c2) && IsDigit(c3) && IsDigit(c4)
    requires IsDigit(c5) && IsDigit(c6) && IsDigit(c7) && IsDigit(c8) && IsDigit(c9)
    requires IsDigit(c10) && IsDigit(c11) && IsDigit(c12)
    ensures var id := [c0, c1, c2, c3, c4, c5, c6, c7, c8, c9, c10, c11, c12];
      WellFormed(id) && (DetermineGender(id) == Female <==> DigitValue(c6) <= 4)
  {
    var id := [c0, c1, c2, c3, c4, c5, c6, c7, c8, c9, c10, c11, c12];
    assert WellFormed(id);
  }

  lemma SpelledCitizen(c0: char, c1: char, c2: char, c3: char, c4: char, c5: char, c6: char,
    c7: char, c8: char, c9: char, c10: char, c11: char, c12: char)
    requires IsDigit(c0) && IsDigit(c1) && IsDigit(c2) && IsDigit(c3) && IsDigit(c4)
    requires IsDigit(c5) && IsDigit(c6) && IsDigit(c7) && IsDigit(c8) && IsDigit(c9)
    requires IsDigit(c10) && IsDigit(c11) && IsDigit(c12)
    ensures var id := [c0, c1, c2, c3, c4, c5, c6, c7, c8, c9, c10, c11, c12];
      WellFormed(id) && (DetermineIsCitizen(id) <==> c10 == '0')
  {
    var id := [c0, c1, c2, c3, c4, c5, c6, c7, c8, c9, c10, c11, c12];
    assert WellFormed(id);
  }

  lemma SpelledCheckSum(c0: char, c1: char, c2: char, c3: char, c4: char, c5: char, c6: char,
    c7: char, c8: char, c9: char, c10: char, c11: char, c12: char)
    requires IsDigit(c0) && IsDigit(c1) && IsDigit(c2) && IsDigit(c3) && IsDigit(c4)
    requires IsDigit(c5) && IsDigit(c6) && IsDigit(c7) && IsDigit(c8) && IsDigit(c9)
    requires IsDigit(c10) && IsDigit(c11) && IsDigit(c12)
    ensures var id := [c0, c1, c2, c3, c4, c5, c6, c7, c8, c9, c10, c11, c12];
      WellFormed(id)
      && CheckSum(id, 13) ==
        Folded(DigitValue(c0)) + Folded(2 * DigitValue(c1)) + Folded(DigitValue(c2))
        + Folded(2 * DigitValue(c3)) + Folded(DigitValue(c4)) + Folded(2 * DigitValue(c5))
        + Folded(DigitValue(c6)) + Folded(2 * DigitValue(c7)) + Folded(DigitValue(c8))
        + Folded(2 * DigitValue(c9)) + Folded(DigitValue(c10)) + Folded(2 * DigitValue(c11))
        + Folded(DigitValue(c12))
  {
    var id := [c0, c1, c2, c3, c4, c5, c6, c7, c8, c9, c10, c11, c12];
    assert WellFormed(id);
    CheckSumSpelled(id);
    assert TermAt(id, 0) == Folded(DigitValue(c0));
    assert TermAt(id, 1) == Folded(2 * DigitValue(c1));
    assert TermAt(id, 2) == Folded(DigitValue(c2));
    assert TermAt(id, 3) == Folded(2 * DigitValue(c3));
    assert TermAt(id, 4) == Folded(DigitValue(c4));
    assert TermAt(id, 5) == Folded(2 * DigitValue(c5));
    assert TermAt(id, 6) == Folded(DigitValue(c6));
    assert TermAt(id, 7) == Folded(2 * DigitValue(c7));
    assert TermAt(id, 8) == Folded(DigitValue(c8));
    assert TermAt(id, 9) == Folded(2 * DigitValue(c9));
    assert TermAt(id, 10) == Folded(DigitValue(c10));
    assert TermAt(id, 11) == Folded(2 * DigitValue(c11));
    assert TermAt(id, 12) == Folded(DigitValue(c12));
  }

  /** The verdict on the spelled identity number with `known` supplied, as
      arithmetic on its digits. */
  lemma SpelledValidity(c0: char, c1: char, c2: char, c3: char, c4: char, c5: char, c6: char,
    c7: char, c8: char, c9: char, c10: char, c11: char, c12: char, known: Option<KnownInfo>)
    requires IsDigit(c0) && IsDigit(c1) && IsDigit(c2) && IsDigit(c3) && IsDigit(c4)
    requires IsDigit(c5) && IsDigit(c6) && IsDigit(c7) && IsDigit(c8) && IsDigit(c9)
    requires IsDigit(c10) && IsDigit(c11) && IsDigit(c12)
    ensures var id := [c0, c1, c2, c3, c4, c5, c6, c7, c8, c9, c10, c11, c12];
      var d := Date(BirthYear(10 * DigitValue(c0) + DigitValue(c1), 18),
                    10 * DigitValue(c2) + DigitValue(c3), 10 * DigitValue(c4) + DigitValue(c5));
      IsValidIdNumber(id, known, TestNow) <==>
        ValidDate(d)
        && (known.Some? ==>
              DateOfBirthFactHolds(known.value.dateOfBirth, d)
              && AgeFactHolds(known.value.age, AgeAt(d, NowMs(TestNow)))
              && GenderFactHolds(known.value.gender, if DigitValue(c6) <= 4 then Female else Male)
              && CitizenFactHolds(known.value.isCitizen, c10 == '0'))
        && (Folded(DigitValue(c0)) + Folded(2 * DigitValue(c1)) + Folded(DigitValue(c2))
            + Folded(2 * DigitValue(c3)) + Folded(DigitValue(c4)) + Folded(2 * DigitValue(c5))
            + Folded(DigitValue(c6)) + Folded(2 * DigitValue(c7)) + Folded(DigitValue(c8))
            + Folded(2 * DigitValue(c9)) + Folded(DigitValue(c10)) + Folded(2 * DigitValue(c11))
            + Folded(DigitValue(c12))) % 10 == 0
  {
    SpelledDateOfBirth(c0, c1, c2, c3, c4, c5, c6, c7, c8, c9, c10, c11, c12);
    SpelledGender(c0, c1, c2, c3, c4, c5, c6, c7, c8, c9, c10, c11, c12);
    SpelledCitizen(c0, c1, c2, c3, c4, c5, c6, c7, c8, c9, c10, c11, c12);
    SpelledCheckSum(c0, c1, c2, c3, c4, c5, c6, c7, c8, c9, c10, c11, c12);
  }

  /** Ages at 2018-03-30 (day 17620 after 1970-01-01) for the test holders'
      birth dates. */
  lemma AgesAtTestNow()
    ensures NowMs(TestNow) == 17620 * MsPerDay
    ensures AgeAt(Date(2001, 9, 13), NowMs(TestNow)) == 16
    ensures AgeAt(Date(1990, 5, 2), NowMs(TestNow)) == 27
    ensures AgeAt(Date(2000, 2, 20), NowMs(TestNow)) == 18
    ensures AgeAt(Date(2009, 4, 2), NowMs(TestNow)) == 8
  {
    assert EpochDay(Date(2018, 3, 30)) == 17620;
    assert EpochDay(Date(2001, 9, 13)) == 11578;
    assert EpochDay(Date(1990, 5, 2)) == 7426;
    assert EpochDay(Date(2000, 2, 20)) == 11007;
    assert EpochDay(Date(2009, 4, 2)) == 14336;
  }

  // ---------------------------------------------------------------------
  // The decoders, on the identity numbers of the validator's tests
  // ---------------------------------------------------------------------

  lemma DateOfBirth2000()
    ensures DetermineDateOfBirth("0009139967088", TestNow) == Some(Date(2000, 9, 13))
  {
    SpelledDateOfBirth('0', '0', '0', '9', '1', '3', '9', '9', '6', '7', '0', '8', '8');
  }

  lemma DateOfBirthBefore2000()
    ensures DetermineDateOfBirth("9005025586082", TestNow) == Some(Date(1990, 5, 2))
  {
    SpelledDateOfBirth('9', '0', '0', '5', '0', '2', '5', '5', '8', '6', '0', '8', '2');
  }

  lemma DateOfBirthIn2000()
    ensures DetermineDateOfBirth("0002205144088", TestNow) == Some(Date(2000, 2, 20))
  {
    SpelledDateOfBirth('0', '0', '0', '2', '2', '0', '5', '1', '4', '4', '0', '8', '8');
  }

  lemma DateOfBirthAfter2000()
    ensures DetermineDateOfBirth("0904026279086", TestNow) == Some(Date(2009, 4, 2))
  {
    SpelledDateOfBirth('0', '9', '0', '4', '0', '2', '6', '2', '7', '9', '0', '8', '6');
  }

  lemma AgeScenario16()
    ensures DetermineAge("0109137813084", TestNow) == Some(16)
  {
    SpelledDateOfBirth('0', '1', '0', '9', '1', '3', '7', '8', '1', '3', '0', '8', '4');
    AgesAtTestNow();
  }

  lemma AgeScenario27()
    ensures DetermineAge("9005025586082", TestNow) == Some(27)
  {
    SpelledDateOfBirth('9', '0', '0', '5', '0', '2', '5', '5', '8', '6', '0', '8', '2');
    AgesAtTestNow();
  }

  lemma AgeScenario18()
    ensures DetermineAge("0002205144088", TestNow) == Some(18)
  {
    SpelledDateOfBirth('0', '0', '0', '2', '2', '0', '5', '1', '4', '4', '0', '8', '8');
    AgesAtTestNow();
  }

  lemma AgeScenario8()
    ensures DetermineAge("0904026279086", TestNow) == Some(8)
  {
    SpelledDateOfBirth('0', '9', '0', '4', '0', '2', '6', '2', '7', '9', '0', '8', '6');
    AgesAtTestNow();
  }

  lemma CitizensA()
    ensures DetermineIsCitizen("9806025369084")
    ensures DetermineIsCitizen("8805066948088")
    ensures DetermineIsCitizen("6706193468085")
  {
    SpelledCitizen('9', '8', '0', '6', '0', '2', '5', '3', '6', '9', '0', '8', '4');
    SpelledCitizen('8', '8', '0', '5', '0', '6', '6', '9', '4', '8', '0', '8', '8');
    SpelledCitizen('6', '7', '0', '6', '1', '9', '3', '4', '6', '8', '0', '8', '5');
  }

  lemma CitizensB()
    ensures DetermineIsCitizen("9509122416085")
    ensures DetermineIsCitizen("8701144189086")
  {
    SpelledCitizen('9', '5', '0', '9', '1', '2', '2', '4', '1', '6', '0', '8', '5');
    SpelledCitizen('8', '7', '0', '1', '1', '4', '4', '1', '8', '9', '0', '8', '6');
  }

  lemma NonCitizensA()
    ensures !DetermineIsCitizen("8701140138186")
    ensures !DetermineIsCitizen("9511254677187")
    ensures !DetermineIsCitizen("8306049271185")
  {
    SpelledCitizen('8', '7', '0', '1', '1', '4', '0', '1', '3', '8', '1', '8', '6');
    SpelledCitizen('9', '5', '1', '1', '2', '5', '4', '6', '7', '7', '1', '8', '7');
    SpelledCitizen('8', '3', '0', '6', '0', '4', '9', '2', '7', '1', '1', '8', '5');
  }

  lemma NonCitizensB()
    ensures !DetermineIsCitizen("9606136397184")
    ensures !DetermineIsCitizen("9902102616180")
  {
    SpelledCitizen('9', '6', '0', '6', '1', '3', '6', '3', '9', '7', '1', '8', '4');
    SpelledCitizen('9', '9', '0', '2', '1', '0', '2', '6', '1', '6', '1', '8', '0');
  }

  lemma MalesA()
    ensures DetermineGender("9902107174185") == Male
    ensures DetermineGender("5108145185084") == Male
    ensures DetermineGender("6706025999083") == Male
  {
    SpelledGender('9', '9', '0', '2', '1', '0', '7', '1', '7', '4', '1', '8', '5');
    SpelledGender('5', '1', '0', '8', '1', '4', '5', '1', '8', '5', '0', '8', '4');
    SpelledGender('6', '7', '0', '6', '0', '2', '5', '9', '9', '9', '0', '8', '3');
  }

  lemma MalesB()
    ensures DetermineGender("8009099919089") == Male
    ensures DetermineGender("9908198271087") == Male
  {
    SpelledGender('8', '0', '0', '9', '0', '9', '9', '9', '1', '9', '0', '8', '9');
    SpelledGender('9', '9', '0', '8', '1', '9', '8', '2', '7', '1', '0', '8', '7');
  }

  lemma FemalesA()
    ensures DetermineGender("9905190928086") == Female
    ensures DetermineGender("0111193095085") == Female
    ensures DetermineGender("6508070078080") == Female
  {
    SpelledGender('9', '9', '0', '5', '1', '9', '0', '9', '2', '8', '0', '8', '6');
    SpelledGender('0', '1', '1', '1', '1', '9', '3', '0', '9', '5', '0', '8', '5');
    SpelledGender('6', '5', '0', '8', '0', '7', '0', '0', '7', '8', '0', '8', '0');
  }

  lemma FemalesB()
    ensures DetermineGender("8201224565081") == Female
    ensures DetermineGender("6712272244082") == Female
  {
    SpelledGender('8', '2', '0', '1', '2', '2', '4', '5', '6', '5', '0', '8', '1');
    SpelledGender('6', '7', '1', '2', '2', '7', '2', '2', '4', '4', '0', '8', '2');
  }

  lemma GenderBoundary()
    ensures DetermineGender("6712274999082") == Female
    ensures DetermineGender("6712275000082") == Male
  {
    SpelledGender('6', '7', '1', '2', '2', '7', '4', '9', '9', '9', '0', '8', '2');
    SpelledGender('6', '7', '1', '2', '2', '7', '5', '0', '0', '0', '0', '8', '2');
  }

  // ---------------------------------------------------------------------
  // validateIdNumber: each lemma below is one case of the validator's tests,
  // an identity number, the facts supplied with it and the verdict. The
  // number is a parameter fixed by `requires id == "..."` rather than a
  // literal in the ensures, so that the solver does not unfold every
  // function on the literal and works through `SpelledValidity` instead.
  // ---------------------------------------------------------------------

  /** What a caller knows who knows only the birth date, as local midnight. */
  function KnownDateOfBirth(d: Date): KnownInfo
    requires 1 <= d.month <= 12
  {
    NothingKnown.(dateOfBirth := Some(EpochMs(d)))
  }

  /** Local midnight and age at the test clock of the birth dates the
      validation cases supply or decode. */
  lemma BornOn20040913()
    ensures EpochDay(Date(2004, 9, 13)) == 12674
    ensures AgeAt(Date(2004, 9, 13), NowMs(TestNow)) == 13
  {
    assert EpochDay(Date(2018, 3, 30)) == 17620;
  }

  lemma BornOn19940513()
    ensures EpochDay(Date(1994, 5, 13)) == 8898
    ensures AgeAt(Date(1994, 5, 13), NowMs(TestNow)) == 23
  {
    assert EpochDay(Date(2018, 3, 30)) == 17620;
  }

  lemma BornOn20010915()
    ensures EpochDay(Date(2001, 9, 15)) == 11580
    ensures AgeAt(Date(2001, 9, 15), NowMs(TestNow)) == 16
  {
    assert EpochDay(Date(2018, 3, 30)) == 17620;
  }

  const DateAndGender := KnownInfo(Some(EpochMs(Date(2001, 9, 15))), None, Some("male"), None)

  const EverythingKnown := KnownInfo(Some(EpochMs(Date(2001, 9, 15))), Some(16), Some("male"), Some(false))

  lemma ValidNumberPasses(id: string)
    requires id == "6712272244082"
    ensures IsValidIdNumber(id, None, TestNow)
  {
    SpelledValidity('6', '7', '1', '2', '2', '7', '2', '2', '4', '4', '0', '8', '2',
      None);
  }

  lemma ShortNumberFails(id: string)
    requires id == "61422733"
    ensures !IsValidIdNumber(id, None, TestNow)
  {
  }

  lemma NonDigitNumberFails(id: string)
    requires id == "6L122L22AAOB2"
    ensures !IsValidIdNumber(id, None, TestNow)
  {
    assert !IsDigit(id[1]);
  }

  lemma BadChecksumNumberFails(id: string)
    requires id == "6142273344082"
    ensures !IsValidIdNumber(id, None, TestNow)
  {
    SpelledValidity('6', '1', '4', '2', '2', '7', '3', '3', '4', '4', '0', '8', '2',
      None);
  }

  lemma MatchingDateOfBirthPasses(id: string)
    requires id == "0409130295085"
    ensures IsValidIdNumber(id, Some(KnownDateOfBirth(Date(2004, 9, 13))), TestNow)
  {
    SpelledValidity('0', '4', '0', '9', '1', '3', '0', '2', '9', '5', '0', '8', '5',
      Some(KnownDateOfBirth(Date(2004, 9, 13))));
  }

  lemma OtherDateOfBirthFails(id: string)
    requires id == "9405134109083"
    ensures !IsValidIdNumber(id, Some(KnownDateOfBirth(Date(2004, 9, 13))), TestNow)
  {
    BornOn20040913();
    BornOn19940513();
    SpelledValidity('9', '4', '0', '5', '1', '3', '4', '1', '0', '9', '0', '8', '3',
      Some(KnownDateOfBirth(Date(2004, 9, 13))));
  }

  lemma MatchingAgePasses(id: string)
    requires id == "0409130295085"
    ensures IsValidIdNumber(id, Some(KnownInfo(None, Some(13), None, None)), TestNow)
  {
    BornOn20040913();
    SpelledValidity('0', '4', '0', '9', '1', '3', '0', '2', '9', '5', '0', '8', '5',
      Some(KnownInfo(None, Some(13), None, None)));
  }

  lemma OtherAgeFails(id: string)
    requires id == "9405134109083"
    ensures !IsValidIdNumber(id, Some(KnownInfo(None, Some(13), None, None)), TestNow)
  {
    BornOn19940513();
    SpelledValidity('9', '4', '0', '5', '1', '3', '4', '1', '0', '9', '0', '8', '3',
      Some(KnownInfo(None, Some(13), None, None)));
  }

  lemma MatchingGenderPasses(id: string)
    requires id == "9405134342080"
    ensures IsValidIdNumber(id, Some(KnownInfo(None, None, Some("female"), None)), TestNow)
  {
    SpelledValidity('9', '4', '0', '5', '1', '3', '4', '3', '4', '2', '0', '8', '0',
      Some(KnownInfo(None, None, Some("female"), None)));
  }

  lemma OtherGenderFails(id: string)
    requires id == "9405137664084"
    ensures !IsValidIdNumber(id, Some(KnownInfo(None, None, Some("female"), None)), TestNow)
  {
    SpelledValidity('9', '4', '0', '5', '1', '3', '7', '6', '6', '4', '0', '8', '4',
      Some(KnownInfo(None, None, Some("female"), None)));
  }

  lemma MatchingCitizenshipPasses(id: string)
    requires id == "9405139618088"
    ensures IsValidIdNumber(id, Some(KnownInfo(None, None, None, Some(true))), TestNow)
  {
    SpelledValidity('9', '4', '0', '5', '1', '3', '9', '6', '1', '8', '0', '8', '8',
      Some(KnownInfo(None, None, None, Some(true))));
  }

  lemma OtherCitizenshipFails(id: string)
    requires id == "9405139019188"
    ensures !IsValidIdNumber(id, Some(KnownInfo(None, None, None, Some(true))), TestNow)
  {
    SpelledValidity('9', '4', '0', '5', '1', '3', '9', '0', '1', '9', '1', '8', '8',
      Some(KnownInfo(None, None, None, Some(true))));
  }

  lemma MatchingDateAndGenderPasses(id: string)
    requires id == "0109156601188"
    ensures IsValidIdNumber(id, Some(DateAndGender), TestNow)
  {
    SpelledValidity('0', '1', '0', '9', '1', '5', '6', '6', '0', '1', '1', '8', '8',
      Some(DateAndGender));
  }

  lemma PartlyMatchingDateAndGenderFails(id: string)
    requires id == "0109133948181"
    ensures !IsValidIdNumber(id, Some(DateAndGender), TestNow)
  {
    SpelledValidity('0', '1', '0', '9', '1', '3', '3', '9', '4', '8', '1', '8', '1',
      Some(DateAndGender));
  }

  lemma UnmatchedDateAndGenderFails(id: string)
    requires id == "2103313705089"
    ensures !IsValidIdNumber(id, Some(DateAndGender), TestNow)
  {
    SpelledValidity('2', '1', '0', '3', '3', '1', '3', '7', '0', '5', '0', '8', '9',
      Some(DateAndGender));
  }

  lemma MatchingEverythingPasses(id: string)
    requires id == "0109157840181"
    ensures IsValidIdNumber(id, Some(EverythingKnown), TestNow)
  {
    BornOn20010915();
    SpelledValidity('0', '1', '0', '9', '1', '5', '7', '8', '4', '0', '1', '8', '1',
      Some(EverythingKnown));
  }

  lemma PartlyMatchingEverythingFails(id: string)
    requires id == "0109154774086"
    ensures !IsValidIdNumber(id, Some(EverythingKnown), TestNow)
  {
    SpelledValidity('0', '1', '0', '9', '1', '5', '4', '7', '7', '4', '0', '8', '6',
      Some(EverythingKnown));
  }

  lemma UnmatchedEverythingFails(id: string)
    requires id == "0102043308083"
    ensures !IsValidIdNumber(id, Some(EverythingKnown), TestNow)
  {
    SpelledValidity('0', '1', '0', '2', '0', '4', '3', '3', '0', '8', '0', '8', '3',
      Some(EverythingKnown));
  }

  // ---------------------------------------------------------------------
  // The year text of the birth date
  // ---------------------------------------------------------------------

  /** On the first date-of-birth test the code as written builds the year
      text "20" where the test expects the year 2000, and it builds the same
      text for the holder born in 2009. */
  lemma AsWrittenYearTextOnTests()
    ensures BirthYearTextAsWritten("0009139967088", TestNow) == "20"
    ensures BirthYearTextAsWritten("0904026279086", TestNow) == "20"
    ensures BirthYearText("0009139967088", TestNow) == "2000"
    ensures BirthYearText("0904026279086", TestNow) == "2009"
  {
    SpelledDateOfBirth('0', '0', '0', '9', '1', '3', '9', '9', '6', '7', '0', '8', '8');
    SpelledDateOfBirth('0', '9', '0', '4', '0', '2', '6', '2', '7', '9', '0', '8', '6');
  }
}
