# jv-user-score in Dafny

A model of `UserService.getUserScore(String[] records, String email)`. The method looks up
a user's score in an array of `"email:score"` records. It scans the records in order. For each
record it takes the text before the first `':'` and compares it with `email` by exact string
equality. On the first match it parses the text after that `':'` with `Integer.valueOf` and
returns the value as an `int`. If no record matches, it throws
`UserNotFoundException("User with given email doesn't exist")`.

Every way the call can end is a value of `UserService.Outcome`:

- `Found(score)`: the matching record's score.
- `UserNotFound(message)`: every record has a `':'` and none has the email before its first `':'`. The message is always `NotFoundMessage`.
- `IndexOutOfBounds`: a record without `':'` was reached before any match, so `substring(0, -1)` failed.
- `NumberFormat`: the matching record's score text is not an `int` literal.

Files:

- `java_string.dfy` (module `JavaString`): `String.indexOf(char)`.
- `java_integer.dfy` (module `JavaInteger`): Java's 32-bit `int` (`int32`), `Integer.parseInt`
  (`ParseInt`, which `Integer.valueOf` calls) and `Integer.toString` (`FormatInt`) as its inverse.
  `ParseInt` follows the JDK's scan. It takes an optional sign, then reads digits one at a time,
  accumulating the magnitude. It fails at the first non-digit, or as soon as the magnitude passes
  the bound for the sign. Its contract states the meaning: an optional sign, at least one digit,
  and a value in the `int` range.
- `user_service.dfy` (module `UserService`): the outcome type, the specification function
  `Lookup` over a sequence of records, the method `GetUserScore` over an array with the loop of
  the Java method, and the lemmas about `Lookup`.
- `user_service_tests.dfy` (module `UserServiceTests`): the behaviour scenarios of
  `UserServiceTest`, proved about `Lookup`.

`GetUserScore` has no `modifies` clause, so it cannot change the array. Its result always fits
in 32 bits because `Found` carries an `int32`.

## Model

| member | source | states |
|---|---|---|
| `JavaString.IndexOf` | src/main/java/core/basesyntax/UserService.java:9 | `record.indexOf(':')` is -1 exactly when the record has no `':'`; otherwise it is the position of a `':'` with none before it |
| `JavaString.IndexOfSplit` | src/main/java/core/basesyntax/UserService.java:9 | in `p + ":" + t` with no `':'` in `p`, the first `':'` is at position `|p|`, so the split gives back `p` and `t` |
| `JavaInteger.ParseInt` | src/main/java/core/basesyntax/UserService.java:10 | `Integer.valueOf` succeeds exactly on an optional sign followed by at least one ASCII digit whose value lies in -2^31..2^31-1, and then returns that value |
| `JavaInteger.ScanDigitsValue` | src/main/java/core/basesyntax/UserService.java:10 | the JDK's digit scan with early overflow exit gives the decimal value of the digits, and fails exactly when a character is not a digit or the value exceeds the bound |
| `JavaInteger.ParseFormatRoundTrip` | src/main/java/core/basesyntax/UserService.java:10 | parsing `Integer.toString(n)` gives back `n` for every `int` |
| `JavaInteger.ParseIntRejectsColon` | src/main/java/core/basesyntax/UserService.java:10 | a text holding a `':'` is never a valid `int` literal |
| `UserService.ParseScore` | src/main/java/core/basesyntax/UserService.java:10 | the score text yields `Found(v)` exactly when it is an in-range `int` literal with value `v`, and `NumberFormat` otherwise |
| `UserService.Lookup` | src/main/java/core/basesyntax/UserService.java:7-14 | whenever the lookup ends in not-found, the message is exactly "User with given email doesn't exist" |
| `UserService.GetUserScore` | src/main/java/core/basesyntax/UserService.java:7-14 | the `for` loop with its early return and final throw ends exactly as `Lookup` does on the array's contents; the loop keeps the invariant that every record already passed has a `':'` and a different email |
| `UserService.LookupAppend` | src/main/java/core/basesyntax/UserService.java:8-13 | scanning `s + t` gives the result of `s` unless `s` ends in not-found; only then does `t` decide |
| `UserService.NotFoundIff` | src/main/java/core/basesyntax/UserService.java:8-13 | the result is not-found, with the fixed message, if and only if every record has a `':'` and none has `email` before its first `':'`; this includes no records at all |
| `UserService.FirstMatchWins` | src/main/java/core/basesyntax/UserService.java:8-11 | if the first matching record is `email + ":" + text`, the result is the parse of `text`, whatever the later records hold |
| `UserService.MissingColonFaults` | src/main/java/core/basesyntax/UserService.java:8-9 | a record without `':'` reached before any match ends the call in an index fault, not in not-found |
| `UserService.ColonInEmailNeverMatches` | src/main/java/core/basesyntax/UserService.java:9 | an email holding `':'` matches no record: the result is not-found when every record has a `':'`, and an index fault otherwise |
| `UserService.ColonInScoreIsNumberFormat` | src/main/java/core/basesyntax/UserService.java:9-10 | only the first `':'` splits a record, so a score text that still holds a `':'` gives a number-format fault |
| `UserService.UnmatchedScoreIgnored` | src/main/java/core/basesyntax/UserService.java:9-10 | replacing the score text of a non-matching record with any text leaves the result unchanged, because that score is never parsed |
| `UserService.RecordRoundTrip` | src/main/java/core/basesyntax/UserService.java:9-10 | a first matching record `email + ":" + Integer.toString(n)` yields `Found(n)` |
| `UserServiceTests.ValidCaseMortimer` | src/test/java/core/basesyntax/UserServiceTest.java:31-32 | "mortimer@mail.us" in the basic records yields 53 |
| `UserServiceTests.ValidCaseRick` | src/test/java/core/basesyntax/UserServiceTest.java:33-34 | "rick@yahoo.com" yields 99 |
| `UserServiceTests.ValidCaseGreg` | src/test/java/core/basesyntax/UserServiceTest.java:35-36 | "greg@gmail.com" yields 20 |
| `UserServiceTests.ValidCaseJerry` | src/test/java/core/basesyntax/UserServiceTest.java:37-38 | "jerry@mail.us" yields 0 |
| `UserServiceTests.ValidCaseBob` | src/test/java/core/basesyntax/UserServiceTest.java:39-40 | "bob@mail.com" yields 141986 |
| `UserServiceTests.ValidCaseTest` | src/test/java/core/basesyntax/UserServiceTest.java:41-42 | "test@gmail.com" yields 2 |
| `UserServiceTests.EmptyRecords` | src/test/java/core/basesyntax/UserServiceTest.java:102-116 | no records gives not-found with the fixed message |
| `UserServiceTests.WrongEmailFormatFirstCase` | src/test/java/core/basesyntax/UserServiceTest.java:118-134 | the whole record "carl@mail.com:30" given as the email is not found |
| `UserServiceTests.WrongEmailFormatSecondCase` | src/test/java/core/basesyntax/UserServiceTest.java:136-152 | "jerry@mail.us:0$@" is not found in the basic records |
| `UserServiceTests.WrongEmailFormatThirdCase` | src/test/java/core/basesyntax/UserServiceTest.java:154-170 | "bob@mail.com:1419" is not found in the basic records |
| `UserServiceTests.SecondColonInScore` | src/main/java/core/basesyntax/UserService.java:9-10 | the record "a:1:2" looked up as "a" parses "1:2" and gives a number-format fault |

## Left out

- `ParseInt`: `Character.digit` also accepts non-ASCII Unicode decimal digits (for example Arabic-Indic or fullwidth digits). The model accepts only `'0'`..`'9'`, so such a score gives `NumberFormat` here where Java would return a value.
- `null` values: a `null` array or record makes the Java method throw `NullPointerException`. A `null` email matches no record, because `equals(null)` is false, so the call ends as `ColonInEmailNeverMatches` describes for an email holding `':'`. Dafny strings and arrays here are never null.
- IndexOf: positions are counted in Unicode scalar values, not in Java's UTF-16 code units, so a character outside the Basic Multilingual Plane before the `':'` gives a smaller index than Java's `indexOf`. The outcome of `Lookup` is unaffected, because the index only cuts that same string. Java strings holding unpaired surrogates cannot be written in the model.
- The exact Java exception classes (`StringIndexOutOfBoundsException`, `NumberFormatException`) and the `UserNotFoundException` class (`core.basesyntax.exception`, which is not part of this model). They appear only as `Outcome` values.
- The reflection tests in `UserServiceTest` (lines 45-100). They check that the exception class exists, extends `RuntimeException` and takes a `String` message, and that `getUserScore` declares no `throws` clause. These are Java type-system facts with no behaviour to model.
- The `UserService` class itself. It has no fields, so `GetUserScore` is a module-level method.
- Boxing of the `Integer` from `Integer.valueOf` and its unboxing to `int`. Only the parsed value is modelled.

On malformed records, the code fails loudly rather than skipping them. The model follows the code.
