# Preprocessing helpers of the Airbnb booking-destination pipeline, in Dafny

This project models the hand-written logic in `scripts/utils/preprocessing.py`.
That file prepares the users table before a boosted-tree classifier is trained.
The model covers three pieces:

- **Holiday-name sanitiser** (`_sanitize_holiday_name`), in module `HolidayNames`.
  A holiday's name keeps only its letters, digits and spaces. It is then lower-cased, and every space becomes `_`.
  The three stages are the functions `KeepNameChars`, `Lower` and `ReplaceSpaces`.
  The lemmas state what the result is in terms of the input:
  its alphabet, its length, how characters map by position, where underscores come from, and when sanitising twice changes nothing.
- **Importance vector** (`XGBFeatureSelection.feature_importances_`), in module `XGBFeatureSelection`.
  A vector of `n_features` zeros is filled from the booster's score map.
  Each key `f<digits>` names an index (`int(k[1:])`), and the key's score is written at that index.
  The method `FeatureImportances` keeps the array and the loop.
  Its result is stated through `ImportanceVector`, whose entry i is `LastWrite`: the score of the last entry naming index i, or 0.
  A negative `n_features` fails with `NegativeCount` before the loop, as `np.zeros` would raise.
  A key whose tail is not all digits stops the loop with `MalformedKey`, as `int()` would raise.
  An index at or beyond `n_features` stops it with `IndexOutOfRange`, as the array write would raise.
- **Holiday-distance columns** (the loop of `process_holidays`), in module `HolidayFeatures`.
  For every holiday, the user's record gets the column `days_to_<sanitised name>`.
  That column holds the holiday's date minus the user's date, in days.
  Dates are day ordinals, as `date.toordinal()` gives them.
  The record is a `Record` object, built from its initial columns by its constructor, whose `columns` map the method `ProcessHolidays` updates in place.
  The result is specified by `WithHolidayColumns`, and the lemmas about it state which keys appear, which values they hold, and how many columns are new.

Shared helpers: `Wrappers` (Option, Result) and `Ascii` (the ASCII character classes standing in for `isalpha`, `isdigit` and `lower`).

Two consequences of the code worth noting:

- Sanitising does not collapse whitespace. Two consecutive spaces give two underscores, and a leading space gives a leading underscore (`SanitizePreservesOrder`).
- The number of new columns equals the number of holidays if and only if the holidays' column names are pairwise distinct and not already in the record (`NewColumnsExact`). In general it is at most that number (`NewColumnsBound`).

## Model

| member | source | states |
|---|---|---|
| `Ascii.ToLower` | scripts/utils/preprocessing.py:76 | lower-casing leaves no upper-case letter, keeps letters letters, and changes nothing that is not an upper-case letter |
| `Ascii.IsLetter` | scripts/utils/preprocessing.py:75 | `isalpha()` on ASCII; a letter is neither a space nor an underscore |
| `Ascii.IsDigit` | scripts/utils/preprocessing.py:75 | `isdigit()` on ASCII; a digit is not a letter, a space or an underscore |
| `HolidayNames.KeepNameChars` | scripts/utils/preprocessing.py:75 | the comprehension keeps only letters, digits and spaces, and is never longer than the name |
| `HolidayNames.Lower` | scripts/utils/preprocessing.py:76 | `lower()` keeps the length and leaves no upper-case letter |
| `HolidayNames.ReplaceSpaces` | scripts/utils/preprocessing.py:76 | `replace(" ", "_")` keeps the length and leaves no space |
| `HolidayNames.SanitizeHolidayName` | scripts/utils/preprocessing.py:74-77 | the sanitised name consists only of `a`-`z`, `0`-`9` and `_`, and is never longer than the input |
| `HolidayNames.KeptPositions` | scripts/utils/preprocessing.py:75 | independent reference: the strictly increasing list of exactly those input positions that hold a letter, digit or space |
| `HolidayNames.KeepNameCharsAtPositions` | scripts/utils/preprocessing.py:75 | the comprehension's j-th character is the input character at the j-th kept position |
| `HolidayNames.SanitizePreservesOrder` | scripts/utils/preprocessing.py:75-76 | output position j is the image of the j-th kept input character: a letter lower-cased, a digit unchanged, a space turned into `_` |
| `HolidayNames.SanitizedLength` | scripts/utils/preprocessing.py:75-76 | the sanitised length equals the number of input positions holding a letter, digit or space |
| `HolidayNames.UnderscoresComeFromSpaces` | scripts/utils/preprocessing.py:75-76 | an output character is `_` if and only if it comes from a space; the output contains `_` if and only if the input contains a space |
| `HolidayNames.KeepAllNameChars` | scripts/utils/preprocessing.py:75 | a string of letters, digits and spaces passes the comprehension unchanged |
| `HolidayNames.KeepDropsOther` | scripts/utils/preprocessing.py:75 | a string with any other character gets strictly shorter |
| `HolidayNames.SanitizeKeepsPlainName` | scripts/utils/preprocessing.py:74-77 | a name of lower-case letters and digits is its own sanitised form |
| `HolidayNames.SanitizeTwice` | scripts/utils/preprocessing.py:74-77 | sanitising a sanitised name is the identity if and only if the original name had no space, since existing underscores are dropped |
| `HolidayNames.KeepNameCharsAppend` | scripts/utils/preprocessing.py:75 | the comprehension distributes over concatenation |
| `HolidayNames.KeepNameCharsNewYearsDay` | scripts/utils/preprocessing.py:75 | the comprehension drops the apostrophe of "New Year's Day" |
| `HolidayNames.NewYearsDay` | scripts/utils/preprocessing.py:74-77 | "New Year's Day" sanitises to "new_years_day" |
| `XGBFeatureSelection.DecimalValue` | scripts/utils/preprocessing.py:69 | `int()` of a digit string is 0 if and only if every digit is `0` |
| `XGBFeatureSelection.LeadingZeroIgnored` | scripts/utils/preprocessing.py:69 | a leading `0` does not change the value read, so `f1` and `f01` name the same index |
| `XGBFeatureSelection.DecimalString` | scripts/utils/preprocessing.py:69 | the spelling of an index is a non-empty string of digits |
| `XGBFeatureSelection.DecimalRoundTrip` | scripts/utils/preprocessing.py:69 | `int()` of the spelling of n is n |
| `XGBFeatureSelection.FeatureKeyRoundTrip` | scripts/utils/preprocessing.py:69 | `int(k[1:])` of the key `f<i>` is i |
| `XGBFeatureSelection.KeyIndex` | scripts/utils/preprocessing.py:69 | `int(k[1:])` for a key whose tail is all digits: an empty tail or a tail starting with a non-digit (a sign) parses to nothing, and index 0 is read exactly from all-zero tails; which keys parse to which index is pinned by `PaddedKeyIndex` and `KeyIndexParsed` |
| `XGBFeatureSelection.ZerosIgnored` | scripts/utils/preprocessing.py:69 | any number of leading zeros leaves the value `int()` reads unchanged |
| `XGBFeatureSelection.CanonicalRoundTrip` | scripts/utils/preprocessing.py:69 | a digit string without a leading zero (or a single digit) is the spelling of the value `int()` reads from it |
| `XGBFeatureSelection.LeadingZeros` | scripts/utils/preprocessing.py:69 | the zeros in front of the first significant digit never exceed the string's length |
| `XGBFeatureSelection.LeadingZerosSplit` | scripts/utils/preprocessing.py:69 | a digit string is a run of its leading zeros followed by the spelling of its value |
| `XGBFeatureSelection.ZeroRunGrows` | scripts/utils/preprocessing.py:69 | a `0` in front of a run of zeros gives a run one longer |
| `XGBFeatureSelection.PaddedKeyIndex` | scripts/utils/preprocessing.py:69 | every key made of any first character, any number of zeros and the spelling of i parses to i (so `f7`, `f007` and `x7` all name feature 7) |
| `XGBFeatureSelection.KeyIndexParsed` | scripts/utils/preprocessing.py:69 | conversely, a key that parses to i has, after its first character, some zeros followed by the spelling of i; no other key parses |
| `XGBFeatureSelection.CheckKey` | scripts/utils/preprocessing.py:69 | an entry can be written exactly when its key parses to an index below `n_features`; otherwise the failure is `MalformedKey` (the `ValueError` of `int`) exactly when the key does not parse, and `IndexOutOfRange` (the `IndexError` of the write), carrying the parsed index, when it parses to an index at or beyond `n_features` |
| `XGBFeatureSelection.LastWrite` | scripts/utils/preprocessing.py:66-69 | reference for the final value at index i: a non-zero value is the score of some entry whose key names i |
| `XGBFeatureSelection.UnnamedIndexStaysZero` | scripts/utils/preprocessing.py:66-69 | an index that no key names keeps the 0 of `np.zeros` |
| `XGBFeatureSelection.LastWriteWins` | scripts/utils/preprocessing.py:68-69 | an entry's score is the final value at its index when no later key names that index |
| `XGBFeatureSelection.ImportanceVector` | scripts/utils/preprocessing.py:66-69 | the vector of final scores has exactly `n_features` entries, entry i being `LastWrite` of i |
| `XGBFeatureSelection.FeatureImportances` | scripts/utils/preprocessing.py:63-71 | a negative `n_features` fails with `NegativeCount`, as `np.zeros` raises; otherwise it succeeds if and only if every key parses to an index below `n_features`, and then returns exactly `ImportanceVector`, of length `n_features`; on a bad entry the error is that of the first one in iteration order; an empty score map gives all zeros |
| `HolidayFeatures.ColumnName` | scripts/utils/preprocessing.py:108-111 | every holiday column starts with `days_to_` and continues with `a`-`z`, `0`-`9` and `_` only |
| `HolidayFeatures.WithHolidayColumns` | scripts/utils/preprocessing.py:103-111 | reference for the record after the loop: no old key disappears, and every key it adds starts with `days_to_` |
| `HolidayFeatures.ProcessHolidays` | scripts/utils/preprocessing.py:103-111 | the record's new columns are `WithHolidayColumns` of its old ones, and its keys are the old keys plus one column name per holiday |
| `HolidayFeatures.ColumnNamesOfPrefix` | scripts/utils/preprocessing.py:103-111 | the column names of a calendar are those of all but its last entry plus the last entry's |
| `HolidayFeatures.ColumnKeys` | scripts/utils/preprocessing.py:103-111 | after the loop the record's keys are its old keys plus the holidays' column names |
| `HolidayFeatures.OtherColumnsUnchanged` | scripts/utils/preprocessing.py:111 | a key that no holiday's column name equals is present afterwards if and only if it was before, with the same value |
| `HolidayFeatures.UnprefixedColumnsUnchanged` | scripts/utils/preprocessing.py:111 | every key not starting with `days_to_`, such as the user's date fields, is left as it was |
| `HolidayFeatures.HolidayColumnValue` | scripts/utils/preprocessing.py:105-111 | a holiday's column holds its date minus the user's date, unless a later holiday sanitises to the same name and overwrites it |
| `HolidayFeatures.HolidayOnUserDate` | scripts/utils/preprocessing.py:105-111 | a holiday on the user's own date gets the distance 0, unless a later holiday sanitises to the same name and overwrites it |
| `HolidayFeatures.ColumnNamesBound` | scripts/utils/preprocessing.py:103-111 | a calendar names at most as many columns as it has entries |
| `HolidayFeatures.ColumnNamesExact` | scripts/utils/preprocessing.py:103-111 | a calendar with pairwise distinct column names names exactly one per entry |
| `HolidayFeatures.NewColumnsBound` | scripts/utils/preprocessing.py:103-111 | the loop adds at most one new column per holiday |
| `HolidayFeatures.CollidingColumnNames` | scripts/utils/preprocessing.py:103-111 | two holidays whose names sanitise to the same column leave fewer column names than holidays |
| `HolidayFeatures.NewColumnsExact` | scripts/utils/preprocessing.py:103-111 | the loop adds exactly one new column per holiday if and only if the holidays' column names are pairwise distinct and none is already in the record |

## Left out

- `one_hot_encoding` (scripts/utils/preprocessing.py:10-30): its behaviour is that of `pandas.get_dummies`, `drop` and `concat`, not of this repository.
- The classifier itself: `XGBClassifier` construction and fitting, `self.booster()` and `get_fscore()`. These are library calls. The score map is an input to `FeatureImportances`, given as its entries in iteration order.
- The `n_features` property getter and setter: the count is a parameter of `FeatureImportances`.
- Building the user's `date` from the year, month and day fields, and the `holidays.US` calendar. These are library date and calendar logic. The user's date is an ordinal parameter of `ProcessHolidays`, and the calendar is an input sequence in iteration order.
- Returning `df` from `process_holidays`: the function returns the same object it updated, and the model only updates it.
- Whether the record is a pandas row or a one-row DataFrame: both are modelled as one map from column names to integers.
- The float element type of `np.zeros`: the vector holds integers, since the scores are split counts.
- SanitizeHolidayName: character classes and lower-casing are ASCII only. Python also keeps and lower-cases non-ASCII letters and digits, which the model drops.
- KeyIndex: only keys whose tail is one or more ASCII digits parse. Python's `int()` also accepts surrounding whitespace and a sign. A negative index would then wrap around in numpy. Such keys are `MalformedKey` errors in the model.
- FeatureImportances: on an error it returns the error instead of raising. The writes done before the error are lost with the local array in both.
