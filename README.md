# Currency transfer form: amount utilities in Dafny

This project models the amount-handling utilities of a small money-transfer web form
(`src/utils/index.ts`). The form asks for a sender, a recipient, a currency and an
amount. Each currency fixes how many fraction digits an amount must have, and each
user has a per-currency ceiling. Three utilities carry the logic:

- `checkDecimalPrecision(value, precision)` checks the format of an amount string.
  It is `DecimalUtils.CheckDecimalPrecision`, with the source's default of 0 for
  `precision`. For a positive precision the source builds the anchored pattern
  `^(\d+\.\d{precision})?$`. The model states that pattern as a character predicate,
  `FixedPointAmount`: one or more ASCII digits, one point, exactly `precision` digits.
  The empty string also matches, because the whole group is optional. For precision 0
  the source compiles the string `'/^d+(.d+)?$/'` as a pattern. A match of that
  pattern would have to consume a literal `/` and then stand at the start of the
  input, so it matches nothing. The model therefore returns false for every value
  at precision 0. It does not turn this into a generic decimal check.
- `isFirstGreater(first, second)` compares two amounts exactly through a decimal
  library. Despite its name it holds when `first >= second`. It is
  `DecimalUtils.IsFirstGreater`. Each amount is split into a coefficient (its digits
  without the point) and a scale (its number of fraction digits). The two amounts are
  then compared by cross-multiplying each coefficient with the other's power of ten.
  Two independent readings are proved equal to it:
  - writing both amounts with the same number of fraction digits and comparing the
    resulting whole numbers (`AtScale`);
  - the exact real value, whole part plus fraction digits over `10^scale`
    (`ExactValue`).
- `generateDecimalHintString(decimals)` builds the format hint shown under the amount
  field. It is the method `DecimalUtils.GenerateDecimalHintString`, whose loop appends
  one `'0'` per decimal as the source's `forEach` does. It is proved to return the
  specification function `DecimalHint(decimals)`, which is `"0."` followed by
  `decimals` zeros. The point is always added, so 0 decimals gives `"0."`.

`Digits` holds digit strings and their numeric values. `TransferTypes` holds the
`Currency` and `User` records (`src/types/index.ts`). Their fields are
`{id, code, name, decimals}` and `{id, name, currencies}`, with `currencies` a
`map<string, string>` from currency code to ceiling. `TransferTypes` also holds the
users and currencies that the form's tests serve.

Behaviour kept exactly as the code has it, even where a reader might expect otherwise:
- precision 0, given or defaulted, rejects every value, `""` included;
- the hint for 0 decimals is `"0."`, not `"0"`;
- `isFirstGreater` is "greater than or equal".

## Model

| member | source | states |
|---|---|---|
| DecimalUtils.CheckDecimalPrecision | src/utils/index.ts:3-12 | accepted iff precision > 0 and the value is empty or matches `\d+\.\d{precision}` as a whole (one point, ASCII digits only, exactly `precision` fraction digits); precision 0 (the default) accepts nothing |
| DecimalUtils.ZeroPrecisionRejectsEverything | src/utils/index.ts:3-11 | with precision 0, given explicitly or by default, every value is rejected, the empty one included |
| DecimalUtils.AcceptedAmountIsDecimalLiteral | src/utils/index.ts:3-17 | an accepted non-empty amount is in the comparison's domain, has exactly `precision` fraction digits, and its point is its only non-digit |
| DecimalUtils.CheckDecimalPrecisionExamples | src/utils/index.ts:5-11 | `"1000.000"` and `""` pass at 3; `"1.5"` at 3, `"12"` at 2, signed, space-led and point-led amounts fail; `"12.34"` and `""` fail at the default precision |
| DecimalUtils.IsFirstGreater | src/utils/index.ts:14-18 | holds iff the first amount, written with as many fraction digits as the longer of the two, is a whole number at least the second's |
| DecimalUtils.IsFirstGreaterAtAnyScale | src/utils/index.ts:14-18 | the same holds for every common number of fraction digits, not just the smallest |
| DecimalUtils.IsFirstGreaterIsExact | src/utils/index.ts:14-18 | holds iff the exact value of the first amount is at least that of the second: "greater or equal", with no rounding |
| DecimalUtils.IsFirstGreaterReflexive | src/utils/index.ts:14-18 | every amount is greater than or equal to itself |
| DecimalUtils.IsFirstGreaterTotal | src/utils/index.ts:14-18 | of any two amounts, at least one direction holds |
| DecimalUtils.IsFirstGreaterTransitive | src/utils/index.ts:14-18 | the comparison is transitive |
| DecimalUtils.IsFirstGreaterAntisymmetric | src/utils/index.ts:14-18 | both directions hold iff the two amounts have the same exact value |
| DecimalUtils.TrailingZeroIgnored | src/utils/index.ts:14-18 | appending a zero after the point changes neither the amount's value nor its comparison with any other amount, in either direction |
| DecimalUtils.LeadingZeroIgnored | src/utils/index.ts:14-18 | prepending a zero to an amount keeps it in the domain, keeps its exact value, and changes neither direction of its comparison with any other amount |
| DecimalUtils.LeadingZeroExample | src/utils/index.ts:14-18 | `00.5` and `0.5` compare greater-or-equal both ways |
| DecimalUtils.EmptyAmountOutsideComparisonDomain | src/utils/index.ts:3-18 | at every positive precision the empty amount passes the precision check, yet it is not an amount the comparison accepts |
| DecimalUtils.LongerWholePartIsGreater | src/utils/index.ts:14-18 | an amount whose whole part has more digits and no leading zero is strictly greater, so the comparison is numeric and not by characters |
| DecimalUtils.IsFirstGreaterCeilingExample | src/components/TransferForm/TransferForm.test.ts:100-120 | `999999.000 >= 1000.000` holds and the reverse does not; `1000.000` against itself holds |
| DecimalUtils.IsFirstGreaterTrailingZerosExample | src/utils/index.ts:14-18 | `1.5` and `1.500` compare greater-or-equal both ways |
| DecimalUtils.IsFirstGreaterNotByCharactersExample | src/utils/index.ts:14-18 | `10 >= 9` holds and `9 >= 10` does not |
| DecimalUtils.GenerateDecimalHintString | src/utils/index.ts:20-31 | the loop builds `DecimalHint(decimals)`: `"0."` then `decimals` zeros |
| DecimalUtils.DecimalHintShape | src/utils/index.ts:20-31 | the hint has length `decimals + 2`: a `0`, a point, then only zeros |
| DecimalUtils.DecimalHintMatchesItsPrecision | src/utils/index.ts:3-31 | the hint for `d` decimals passes the precision check for `p` iff `p == d` and `d >= 1`, so the hint for `d >= 1` always passes its own currency's check |
| DecimalUtils.DecimalHintIsZero | src/utils/index.ts:14-31 | read as an amount, the hint has `decimals` fraction digits and is exactly zero: it compares equal to `"0"` |
| DecimalUtils.DecimalHintExamples | src/components/TransferForm/TransferForm.test.ts:95 | the hint is `"0.000"` for 3 decimals, `"0.00"` for 2 and `"0."` for 0 |
| TransferTypes.FixtureBalancesFollowCurrencyFormat | src/components/TransferForm/mocks.ts:1-64 | every served user's ceiling in a currency passes the precision check for that currency's decimals |
| TransferTypes.AliceRubleScenario | src/components/TransferForm/TransferForm.test.ts:80-120 | Alice's ruble ceiling is `1000.000`; the ruble hint is `0.000`; `999999.000` is above that ceiling and `1000.000` equals it |

## Left out

- IsFirstGreater: requires both amounts to be unsigned literals of the form `\d+(\.\d*)?`. The decimal library also accepts signs, exponents, a leading point (`.5`), `NaN`, `Infinity` and hexadecimal, binary and octal prefixes, and it throws on anything else. Those inputs and the exception are not modelled. A non-empty amount that passes the precision check lies inside the modelled domain (`AcceptedAmountIsDecimalLiteral`). The empty amount passes the check at every positive precision but lies outside it, and the library would throw on it (`EmptyAmountOutsideComparisonDomain`). Whether the form ever compares an empty amount depends on `TransferForm.vue`, which is not part of this model.
- JavaScript coercions of the numeric arguments are not modelled: precision and decimals are natural numbers. A negative, fractional or `NaN` precision, and the length coercion of `Array.from`, fall outside that.
- No general regular-expression engine: the two patterns the precision check compiles are stated as predicates on characters.
- The form component `TransferForm.vue` and the input component `BaseInput.vue` are not part of this model. Their rules are not modelled: required fields, the order of the checks, the maximum-amount rule, and the live clean-up of typed amounts.
- The mock HTTP server (`server/index.mjs`), the fetch helper with its notification (`src/composables/useFetch.ts`), application start-up and build configuration are I/O or configuration with no logic to model.
