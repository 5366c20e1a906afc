# RsaIdValidationLogic in Dafny

A model of `RsaIdValidationLogic`, the validator for South African
identity numbers in `rh-rsa-form-validators`. The validator takes a
13-character number and decodes four fields from fixed positions:

- the birth date (`YYMMDD`, with a two-digit-year century pivot);
- the holder's age in whole years, derived from the birth date;
- the gender code (positions 6..9, below 5000 is female);
- the citizenship digit (position 10, `0` is a citizen).

`validateIdNumber` accepts a number when all of these hold:

- the string has 13 digits;
- the birth date is a real calendar date;
- every fact the caller already knows about the holder agrees with the decoded fields;
- the Luhn checksum of ISO/IEC 7812-1, Annex B, is divisible by 10.

The project has six modules:

- `Wrappers` (`wrappers.dfy`): `Option`.
- `Decimal` (`decimal.dfy`): what `Number(s)` yields for a string of ASCII digits and what `toString()` yields for a natural number, with the value of a digit string, its leading-digit decomposition, append and injectivity.
- `Calendar` (`calendar.dfy`): proleptic Gregorian dates. `EpochDay` counts days from 1970-01-01, and `EpochMs` is the `getTime()` of a local midnight. Both are proved strictly increasing along the calendar order, and injective.
- `LuhnChecksum` (`luhn.dfy`): the validator's left-to-right checksum as a recursive function `CheckSum`. It is proved equal to the ISO/IEC 7812-1 right-to-left Luhn sum for odd lengths, and proved to catch every single-digit error.
- `RsaIdValidationLogic` (`rsa_id_validation_logic.dfy`): the four decoders as functions, the known-info record, and `ValidateIdNumber`. `ValidateIdNumber` is a method with the source's early returns; it calls the checksum loop `ComputeCheckSum`. `ValidateIdNumber` is proved equal to the predicate `IsValidIdNumber`, and the properties of the known-info cross-checks are proved about that predicate.
- `RsaIdScenarios` (`rsa_id_scenarios.dfy`): every concrete case of the validator's test file, stated over the model with the clock at local midnight of 2018-03-30.

The wall clock the source reads (`new Date()`) is the explicit parameter
`now: Clock`: today's date plus the milliseconds since local midnight.

Notes on the test cases:
- The test "invalid checksum" number `6142273344082` also has the month `42`. The model rejects it at the date gate, before the checksum is reached; its checksum (53) would fail as well.
- The date-of-birth tests run against the real clock. They give the same dates at any clock year from 2009 to 2089; the model states them at 2018-03-30.

## Model

L = `projects/rh-rsa-form-validators/src/lib/logic/rsa-id-validation-logic.ts`,
T = `projects/rh-rsa-form-validators/src/lib/logic/rsa-id-validation-logic.test.ts` (paths in the table are written out).

| member | source | states |
|---|---|---|
| RsaIdValidationLogic.ValidateIdNumber | projects/rh-rsa-form-validators/src/lib/logic/rsa-id-validation-logic.ts:3-45 | The result is `IsValidIdNumber`: the 13-digit gate, a real birth date, every supplied fact agreeing, and a checksum divisible by 10. A number of the wrong length or with a non-digit is rejected; an accepted number has a birth date and a passing checksum. |
| RsaIdValidationLogic.ComputeCheckSum | projects/rh-rsa-form-validators/src/lib/logic/rsa-id-validation-logic.ts:34-42 | After the 13 steps of the loop, `checkSum` is the Luhn sum `CheckSum` of the number, between 0 and 117. The loop invariant says the multiplier at step i is `Multiplier(i)`. |
| RsaIdValidationLogic.CurrentTwoDigitYear | projects/rh-rsa-form-validators/src/lib/logic/rsa-id-validation-logic.ts:49 | The two-digit current year lies in 0..99. |
| RsaIdValidationLogic.CurrentTwoDigitYearIsYearText | projects/rh-rsa-form-validators/src/lib/logic/rsa-id-validation-logic.ts:49 | For a four-digit clock year, the two-digit year is the number that characters 2..3 of the year's decimal text denote. |
| RsaIdValidationLogic.NowMs | projects/rh-rsa-form-validators/src/lib/logic/rsa-id-validation-logic.ts:57 | `new Date().getTime()` is an instant within today's local day: from its midnight up to, not including, the next. |
| RsaIdValidationLogic.FieldValues | projects/rh-rsa-form-validators/src/lib/logic/rsa-id-validation-logic.ts:48-52 | The year, month, day, gender-code and citizenship fields have the decimal values of their digits. |
| RsaIdValidationLogic.BirthYear | projects/rh-rsa-form-validators/src/lib/logic/rsa-id-validation-logic.ts:50 | The pivot year ends in the two given digits and lies in 1900..2099. It is in the 2000s exactly when those digits do not exceed the current two-digit year. |
| RsaIdValidationLogic.CenturyPivot | projects/rh-rsa-form-validators/src/lib/logic/rsa-id-validation-logic.ts:48-50 | For a clock year in 2000..2099, the pivot year ends in the two given digits and lies in the hundred years ending with the current year. It is the only such year. |
| RsaIdValidationLogic.DetermineDateOfBirth | projects/rh-rsa-form-validators/src/lib/logic/rsa-id-validation-logic.ts:47-53 | A decoded birth date is always a real calendar date; `None` stands for the Invalid Date. |
| RsaIdValidationLogic.DateOfBirthFields | projects/rh-rsa-form-validators/src/lib/logic/rsa-id-validation-logic.ts:47-53 | The date exists exactly when the month is 1..12 and the day fits that month, with 29 February only in a leap pivot year. Its year is the pivot year of the two year digits; while the clock is in 2000..2099 that is the one year ending in those digits among the hundred years ending with the current year. Month and day are taken verbatim. |
| RsaIdValidationLogic.DateOfBirthInjective | projects/rh-rsa-form-validators/src/lib/logic/rsa-id-validation-logic.ts:47-53 | Two valid numbers decode to the same date exactly when their first six characters are equal. |
| RsaIdValidationLogic.AgeAt | projects/rh-rsa-form-validators/src/lib/logic/rsa-id-validation-logic.ts:59-61 | The age is the floor of (now − birth in ms) / 31556952000: age·Y ≤ elapsed < (age+1)·Y. |
| RsaIdValidationLogic.DetermineAge | projects/rh-rsa-form-validators/src/lib/logic/rsa-id-validation-logic.ts:55-62 | An age exists exactly when the birth date does; otherwise it is the NaN of an Invalid Date. |
| RsaIdValidationLogic.AgeOrder | projects/rh-rsa-form-validators/src/lib/logic/rsa-id-validation-logic.ts:55-62 | Someone born on an earlier date is never younger, and age never decreases as time passes. |
| RsaIdValidationLogic.AgeNotNegativeAfterBirth | projects/rh-rsa-form-validators/src/lib/logic/rsa-id-validation-logic.ts:55-62 | From the birth instant on, the age is at least 0. |
| RsaIdValidationLogic.DetermineGender | projects/rh-rsa-form-validators/src/lib/logic/rsa-id-validation-logic.ts:64-67 | The gender code (characters 6..9, value below 5000) is female exactly when character 6 is 0..4. |
| RsaIdValidationLogic.DetermineIsCitizen | projects/rh-rsa-form-validators/src/lib/logic/rsa-id-validation-logic.ts:69-71 | The holder is a citizen exactly when character 10 is `0`. |
| RsaIdValidationLogic.GenderName | projects/rh-rsa-form-validators/src/lib/logic/rsa-id-validation-logic.ts:64-67 | The gender word is non-empty, so its first letter exists for the comparison at line 25. |
| RsaIdValidationLogic.LowerCaseAscii | projects/rh-rsa-form-validators/src/lib/logic/rsa-id-validation-logic.ts:25 | Lower-casing turns each of `A`..`Z` into its own lower-case letter (code + 32) and leaves every other character unchanged; the result is never upper-case. |
| RsaIdValidationLogic.GenderFactIgnoresCase | projects/rh-rsa-form-validators/src/lib/logic/rsa-id-validation-logic.ts:23-26 | A non-empty supplied gender agrees exactly when it starts with `f` or `F` for a woman, or with `m` or `M` for a man. |
| RsaIdValidationLogic.ValidMeansFactsHold | projects/rh-rsa-form-validators/src/lib/logic/rsa-id-validation-logic.ts:12-32 | An accepted number agrees with every supplied fact: the same birth instant; the same age unless the age is 0; a gender whose first letter, in either case, is `f` or `m` and names the decoded gender; citizenship claimed exactly when character 10 is `0`. |
| RsaIdValidationLogic.MoreFactsNeverRescue | projects/rh-rsa-form-validators/src/lib/logic/rsa-id-validation-logic.ts:12-32 | Facts are AND-ed. Supplying more of them never turns a rejection into an acceptance, and supplying none is the weakest case. |
| RsaIdValidationLogic.SkippedFacts | projects/rh-rsa-form-validators/src/lib/logic/rsa-id-validation-logic.ts:12-28 | A missing info object behaves like an empty one, age 0 like no age, and an empty gender like no gender. |
| RsaIdValidationLogic.CitizenFalseRejectsCitizens | projects/rh-rsa-form-validators/src/lib/logic/rsa-id-validation-logic.ts:28-31 | `isCitizen: false` is a real constraint: it rejects every number whose citizenship digit is `0`. |
| RsaIdValidationLogic.KnownDateOfBirthIsCalendarDate | projects/rh-rsa-form-validators/src/lib/logic/rsa-id-validation-logic.ts:13-16 | A supplied local midnight matches exactly when it is the decoded calendar date. |
| RsaIdValidationLogic.BirthYearTextAsWritten | projects/rh-rsa-form-validators/src/lib/logic/rsa-id-validation-logic.ts:50 | As written, a birth year in the 2000s has a year text only two characters long. |
| RsaIdValidationLogic.AsWrittenLosesYearDigits | projects/rh-rsa-form-validators/src/lib/logic/rsa-id-validation-logic.ts:50 | As written, any two numbers born in the 2000s get the same year text, although their pivot years differ whenever their year digits differ. |
| RsaIdValidationLogic.BirthYearText | projects/rh-rsa-form-validators/src/lib/logic/rsa-id-validation-logic.ts:48-50 | Corrected: the year text has four digits, ends in the number's two year digits, and denotes the pivot year. |
| LuhnChecksum.Multiplier | projects/rh-rsa-form-validators/src/lib/logic/rsa-id-validation-logic.ts:36-41 | The multiplier is 1 or 2, and it is 2 exactly on odd positions. |
| LuhnChecksum.DigitSumOfProduct | projects/rh-rsa-form-validators/src/lib/logic/rsa-id-validation-logic.ts:39 | The fold of a product above 9 (the sum of the first two characters of its decimal text) is the product minus 9 for every product in 10..18. |
| LuhnChecksum.LuhnTerm | projects/rh-rsa-form-validators/src/lib/logic/rsa-id-validation-logic.ts:38-39 | Each term lies in 0..9. |
| LuhnChecksum.LuhnTermIsDigitSum | projects/rh-rsa-form-validators/src/lib/logic/rsa-id-validation-logic.ts:38-39 | The Luhn term is the product when that is a single digit, and otherwise the sum of the product's two digit characters. |
| LuhnChecksum.LuhnTermInjective | projects/rh-rsa-form-validators/src/lib/logic/rsa-id-validation-logic.ts:38-39 | With a fixed multiplier, different digits give different terms. |
| LuhnChecksum.CheckSum | projects/rh-rsa-form-validators/src/lib/logic/rsa-id-validation-logic.ts:34-42 | The sum over the first n characters lies in 0..9n. |
| LuhnChecksum.LuhnSumFromRight | projects/rh-rsa-form-validators/src/lib/logic/rsa-id-validation-logic.ts:34-44 | Reference definition: the ISO/IEC 7812-1 Luhn sum, doubling every second digit from the right, lies in 0..9·length. |
| LuhnChecksum.CheckSumMatchesLuhnPrefix | projects/rh-rsa-form-validators/src/lib/logic/rsa-id-validation-logic.ts:34-42 | The validator's left-to-right sum over a prefix equals the right-to-left Luhn sum of that prefix. |
| LuhnChecksum.CheckSumIsLuhn | projects/rh-rsa-form-validators/src/lib/logic/rsa-id-validation-logic.ts:34-44 | For odd lengths (13 included), the validator's checksum is exactly the ISO/IEC 7812-1 Luhn sum. |
| LuhnChecksum.CheckSumDiffersAt | projects/rh-rsa-form-validators/src/lib/logic/rsa-id-validation-logic.ts:34-42 | Strings differing only at position k have checksums that differ by the difference of their terms at k. |
| LuhnChecksum.SingleDigitErrorDetected | projects/rh-rsa-form-validators/src/lib/logic/rsa-id-validation-logic.ts:44 | Changing a single digit changes the checksum modulo 10, so at most one of the two strings passes. |
| Decimal.DigitValue | projects/rh-rsa-form-validators/src/lib/logic/rsa-id-validation-logic.ts:38 | `Number` of a digit character lies in 0..9. |
| Decimal.NumberValue | projects/rh-rsa-form-validators/src/lib/logic/rsa-id-validation-logic.ts:50 | `Number` of a digit string is below 10 to the power of its length. |
| Decimal.ToDecimalString | projects/rh-rsa-form-validators/src/lib/logic/rsa-id-validation-logic.ts:39 | `toString` of n gives digits only, with no leading zero, and reads back as n; a value of 10 or more has at least two characters. |
| Decimal.LeadingDigit | projects/rh-rsa-form-validators/src/lib/logic/rsa-id-validation-logic.ts:66 | The leading digit of a digit string weighs 10 to the power of (length − 1). |
| Decimal.ShortNumberValue | projects/rh-rsa-form-validators/src/lib/logic/rsa-id-validation-logic.ts:48-52 | The value of a 1-, 2- or 4-digit field, spelled out digit by digit. |
| Decimal.NumberValueAppend | projects/rh-rsa-form-validators/src/lib/logic/rsa-id-validation-logic.ts:50 | Appending digits shifts the prefix's value left by their count. |
| Decimal.NumberValueInjective | projects/rh-rsa-form-validators/src/lib/logic/rsa-id-validation-logic.ts:48-52 | Two equal-length digit strings with the same value are equal. |
| Calendar.DaysInMonth | projects/rh-rsa-form-validators/src/lib/logic/rsa-id-validation-logic.ts:52 | A month has 28 to 31 days, and it has 29 exactly for February of a leap year. |
| Calendar.YearStep | projects/rh-rsa-form-validators/src/lib/logic/rsa-id-validation-logic.ts:52 | Moving to the next year adds that year's length to the day count. |
| Calendar.YearsAscend | projects/rh-rsa-form-validators/src/lib/logic/rsa-id-validation-logic.ts:52 | Every year before z ends no later than z begins. |
| Calendar.MonthsAscend | projects/rh-rsa-form-validators/src/lib/logic/rsa-id-validation-logic.ts:52 | Within a year, every month before n ends no later than n begins. |
| Calendar.WithinYear | projects/rh-rsa-form-validators/src/lib/logic/rsa-id-validation-logic.ts:52 | A valid date's day count falls inside its own year. |
| Calendar.EpochDayAscends | projects/rh-rsa-form-validators/src/lib/logic/rsa-id-validation-logic.ts:52 | The day count, and `getTime()` of local midnight with it, strictly increases along the calendar order. |
| Calendar.EpochMs | projects/rh-rsa-form-validators/src/lib/logic/rsa-id-validation-logic.ts:15 | `getTime()` of a local midnight is a whole number of days after the epoch, namely the date's day count. |
| Calendar.EpochDayInjective | projects/rh-rsa-form-validators/src/lib/logic/rsa-id-validation-logic.ts:15 | Two valid dates have the same day count and the same `getTime()` exactly when they are the same date. |
| RsaIdScenarios.SpelledValidity | projects/rh-rsa-form-validators/src/lib/logic/rsa-id-validation-logic.ts:3-45 | For any 13 digit characters and supplied facts, the verdict at the test clock is a closed formula in the digits: a real pivot date, each supplied fact, and the folded digit sum divisible by 10. |
| RsaIdScenarios.DateOfBirth2000 | projects/rh-rsa-form-validators/src/lib/logic/rsa-id-validation-logic.test.ts:7-12 | `0009139967088` is born on 2000-09-13. |
| RsaIdScenarios.DateOfBirthBefore2000 | projects/rh-rsa-form-validators/src/lib/logic/rsa-id-validation-logic.test.ts:14-19 | `9005025586082` is born on 1990-05-02. |
| RsaIdScenarios.DateOfBirthIn2000 | projects/rh-rsa-form-validators/src/lib/logic/rsa-id-validation-logic.test.ts:21-26 | `0002205144088` is born on 2000-02-20. |
| RsaIdScenarios.DateOfBirthAfter2000 | projects/rh-rsa-form-validators/src/lib/logic/rsa-id-validation-logic.test.ts:28-33 | `0904026279086` is born on 2009-04-02. |
| RsaIdScenarios.AgesAtTestNow | projects/rh-rsa-form-validators/src/lib/logic/rsa-id-validation-logic.test.ts:36-75 | At 2018-03-30, the ages for the test birth dates are 16, 27, 18 and 8. |
| RsaIdScenarios.AgeScenario16 | projects/rh-rsa-form-validators/src/lib/logic/rsa-id-validation-logic.test.ts:48-53 | `0109137813084` is 16. |
| RsaIdScenarios.AgeScenario27 | projects/rh-rsa-form-validators/src/lib/logic/rsa-id-validation-logic.test.ts:55-60 | `9005025586082` is 27. |
| RsaIdScenarios.AgeScenario18 | projects/rh-rsa-form-validators/src/lib/logic/rsa-id-validation-logic.test.ts:62-67 | `0002205144088` is 18. |
| RsaIdScenarios.AgeScenario8 | projects/rh-rsa-form-validators/src/lib/logic/rsa-id-validation-logic.test.ts:69-74 | `0904026279086` is 8. |
| RsaIdScenarios.CitizensA | projects/rh-rsa-form-validators/src/lib/logic/rsa-id-validation-logic.test.ts:78-84 | The first three citizen numbers decode as citizens. |
| RsaIdScenarios.CitizensB | projects/rh-rsa-form-validators/src/lib/logic/rsa-id-validation-logic.test.ts:78-84 | The last two citizen numbers decode as citizens. |
| RsaIdScenarios.NonCitizensA | projects/rh-rsa-form-validators/src/lib/logic/rsa-id-validation-logic.test.ts:86-92 | The first three non-citizen numbers decode as non-citizens. |
| RsaIdScenarios.NonCitizensB | projects/rh-rsa-form-validators/src/lib/logic/rsa-id-validation-logic.test.ts:86-92 | The last two non-citizen numbers decode as non-citizens. |
| RsaIdScenarios.MalesA | projects/rh-rsa-form-validators/src/lib/logic/rsa-id-validation-logic.test.ts:96-102 | The first three male numbers decode as male. |
| RsaIdScenarios.MalesB | projects/rh-rsa-form-validators/src/lib/logic/rsa-id-validation-logic.test.ts:96-102 | The last two male numbers decode as male. |
| RsaIdScenarios.FemalesA | projects/rh-rsa-form-validators/src/lib/logic/rsa-id-validation-logic.test.ts:104-110 | The first three female numbers decode as female. |
| RsaIdScenarios.FemalesB | projects/rh-rsa-form-validators/src/lib/logic/rsa-id-validation-logic.test.ts:104-110 | The last two female numbers decode as female. |
| RsaIdScenarios.GenderBoundary | projects/rh-rsa-form-validators/src/lib/logic/rsa-id-validation-logic.ts:64-67 | Gender code 4999 is female and 5000 is male. |
| RsaIdScenarios.ValidNumberPasses | projects/rh-rsa-form-validators/src/lib/logic/rsa-id-validation-logic.test.ts:115-117 | `6712272244082` with nothing known is accepted. |
| RsaIdScenarios.ShortNumberFails | projects/rh-rsa-form-validators/src/lib/logic/rsa-id-validation-logic.test.ts:119-121 | An 8-character number is rejected. |
| RsaIdScenarios.NonDigitNumberFails | projects/rh-rsa-form-validators/src/lib/logic/rsa-id-validation-logic.test.ts:123-125 | `6L122L22AAOB2` is rejected. |
| RsaIdScenarios.BadChecksumNumberFails | projects/rh-rsa-form-validators/src/lib/logic/rsa-id-validation-logic.test.ts:127-129 | `6142273344082` is rejected. |
| RsaIdScenarios.MatchingDateOfBirthPasses | projects/rh-rsa-form-validators/src/lib/logic/rsa-id-validation-logic.test.ts:132-137 | With birth date 2004-09-13 known, `0409130295085` is accepted. |
| RsaIdScenarios.OtherDateOfBirthFails | projects/rh-rsa-form-validators/src/lib/logic/rsa-id-validation-logic.test.ts:139-141 | With birth date 2004-09-13 known, `9405134109083` is rejected. |
| RsaIdScenarios.MatchingAgePasses | projects/rh-rsa-form-validators/src/lib/logic/rsa-id-validation-logic.test.ts:144-159 | With age 13 known at 2018-03-30, `0409130295085` is accepted. |
| RsaIdScenarios.OtherAgeFails | projects/rh-rsa-form-validators/src/lib/logic/rsa-id-validation-logic.test.ts:161-163 | With age 13 known, `9405134109083` is rejected. |
| RsaIdScenarios.MatchingGenderPasses | projects/rh-rsa-form-validators/src/lib/logic/rsa-id-validation-logic.test.ts:166-171 | With gender "female" known, `9405134342080` is accepted. |
| RsaIdScenarios.OtherGenderFails | projects/rh-rsa-form-validators/src/lib/logic/rsa-id-validation-logic.test.ts:173-175 | With gender "female" known, `9405137664084` is rejected. |
| RsaIdScenarios.MatchingCitizenshipPasses | projects/rh-rsa-form-validators/src/lib/logic/rsa-id-validation-logic.test.ts:178-183 | With citizenship known, `9405139618088` is accepted. |
| RsaIdScenarios.OtherCitizenshipFails | projects/rh-rsa-form-validators/src/lib/logic/rsa-id-validation-logic.test.ts:185-187 | With citizenship known, `9405139019188` is rejected. |
| RsaIdScenarios.MatchingDateAndGenderPasses | projects/rh-rsa-form-validators/src/lib/logic/rsa-id-validation-logic.test.ts:190-195 | With 2001-09-15 and "male" known, `0109156601188` is accepted. |
| RsaIdScenarios.PartlyMatchingDateAndGenderFails | projects/rh-rsa-form-validators/src/lib/logic/rsa-id-validation-logic.test.ts:197-199 | With 2001-09-15 and "male" known, `0109133948181` is rejected. |
| RsaIdScenarios.UnmatchedDateAndGenderFails | projects/rh-rsa-form-validators/src/lib/logic/rsa-id-validation-logic.test.ts:201-203 | With 2001-09-15 and "male" known, `2103313705089` is rejected. |
| RsaIdScenarios.MatchingEverythingPasses | projects/rh-rsa-form-validators/src/lib/logic/rsa-id-validation-logic.test.ts:206-226 | With all four facts known at 2018-03-30, `0109157840181` is accepted. |
| RsaIdScenarios.PartlyMatchingEverythingFails | projects/rh-rsa-form-validators/src/lib/logic/rsa-id-validation-logic.test.ts:228-230 | With all four facts known, `0109154774086` is rejected. |
| RsaIdScenarios.UnmatchedEverythingFails | projects/rh-rsa-form-validators/src/lib/logic/rsa-id-validation-logic.test.ts:232-234 | With all four facts known, `0102043308083` is rejected. |
| RsaIdScenarios.AsWrittenYearTextOnTests | projects/rh-rsa-form-validators/src/lib/logic/rsa-id-validation-logic.test.ts:7-33 | On the tests' numbers born in 2000 and 2009, the year text as written is "20" for both. The corrected text is "2000" and "2009". |

## Left out

- The wall clock. `new Date()` is the parameter `now`. The source reads the clock up to three times in one call (twice through line 49, once at line 57); the model reads one `Clock` for all of them, so a call that straddles midnight or New Year is not modelled. `ValidClock` requires a real date whose year has four digits, because the source takes characters 2..3 of the year's text.
- JavaScript `Date` string parsing, the local time zone and daylight saving time:
  - A birth date is a calendar triple, and `getTime()` of a local midnight is its day count times 86400000.
  - An engine that rolls an out-of-range day (such as 30 February) over into the next month is not modelled. Every out-of-range month or day is the Invalid Date.
- `Number`/`isNaN` coercion in the gate. `WellFormed` accepts exactly 13 ASCII digits. The source's gate also lets through other 13-character strings that `Number` parses: surrounding whitespace, a sign, a decimal point or an exponent. A sign, a point or an exponent character becomes NaN in the checksum loop, so such strings still end `false`, as in the model. The verdicts differ only for leading or trailing whitespace, because the loop reads a space as 0; the model rejects those strings at the gate.
- Known info of the wrong dynamic type. `KnownInfo` has typed optional fields:
  - `None` is `null` or `undefined`;
  - the birth date is a `getTime()` value, so an Invalid Date object supplied as a fact is not represented;
  - non-number ages, non-string genders and truthy non-boolean citizenship flags are not represented.
- `toLowerCase` on characters outside ASCII. `LowerCaseAscii` folds only `A`..`Z`.
- Floating point in `determineAge`. The model uses exact floor division of whole milliseconds by 31556952000. The source divides doubles and floors the quotient; that can differ only when the quotient is within rounding distance of an integer.
- `projects/rh-rsa-form-validators/src/lib/validators/rsa-form-validator.ts`, the Angular phone-number validator: a one-line regular-expression wrapper over Angular forms, outside the identity-number logic. Its test file, `rsa-form-validator.test.ts`, is not part of this model either.
- `RsaIdValidationLogic.DetermineDateOfBirth` uses the corrected year rule (see Findings), not the year text as written.

## Findings

| source | as written | input that shows it | evidently intended | confidence | as-written member | corrected member |
|---|---|---|---|---|---|---|
| projects/rh-rsa-form-validators/src/lib/logic/rsa-id-validation-logic.ts:50 | The conditional's 2000s branch is only the century text; the two year digits are concatenated onto the 1900s branch alone. A birth year in the 2000s therefore becomes the two-character text "20". | `0009139967088` and `0904026279086`, at a clock year of 2009 or later: both get the year text "20" | The century text followed by the two year digits: "2000" and "2009", the dates the tests at test.ts:7-33 expect | high, not executed | RsaIdValidationLogic.BirthYearTextAsWritten, RsaIdValidationLogic.AsWrittenLosesYearDigits, RsaIdScenarios.AsWrittenYearTextOnTests | RsaIdValidationLogic.BirthYearText, RsaIdValidationLogic.DetermineDateOfBirth |
