# Product discount function — a Dafny model

This project models the product-discount function of a Shopify discount app
(`extensions/product-discount-js/src/index.js`). The function runs once per
checkout. It receives the cart and the discount's configuration, which is
stored as JSON in a metafield. It returns either:

- `EMPTY_DISCOUNT`: no discounts, application strategy `First`; or
- one discount with application strategy `First`. Its targets are the product
  variants of the qualifying cart lines. Its value is the configured percentage,
  written as a string.

A cart line qualifies when it holds a `ProductVariant` whose product is flagged
`allow` and not flagged `deny`. When the configured `sessionStatus` is exactly
`"Authenticated"`, the buyer must also be authenticated. Any other status ignores
the buyer.

Files:

- `wrappers.dfy`: `Option` (a JavaScript `undefined`/`null`) and `Result` (a
  value or a thrown exception).
- `number_format.dfy`: `Render`, the decimal text `toString()` gives for an
  integral number of magnitude at most 2^53. It is used for the discount's
  percentage value. `Parse` is its inverse: it accepts exactly the texts
  `Render` produces. The program never reads the text back; `Parse` exists
  to show that the rendering loses nothing.
- `product_discount.dfy`: the input and output records, the line filter
  (`Qualifies`, `Targets`), the configuration lookup (`ReadConfiguration`), the
  top-level `Evaluate`, and lemmas for each branch.

The function's failures are modelled as `Result.Failure` values. `JSON.parse`
of a malformed metafield throws `SyntaxError`. `percentage.toString()` on a
missing or `null` percentage throws `TypeError`. The second failure happens only
on the paths that build a discount. When there are no targets, or the buyer is
not authenticated under the `"Authenticated"` status, a missing percentage is
harmless.

A missing or `null` percentage does not become `NaN`: `undefined.toString()`
throws, so the model returns `Failure(TypeError)` (index.js:72 and :96).

`EMPTY_DISCOUNT` (index.js:14-17) is the constant of the same name: strategy
`First` and no discounts. `Evaluate` states that every successful result with
no discount is this constant.

`Evaluate` is a function of its input, so evaluating the same input twice gives
the same result.

## Model

| member | source | states |
|---|---|---|
| `ProductDiscount.ReadConfiguration` | extensions/product-discount-js/src/index.js:33-35 | A missing discount node, metafield or value gives the empty configuration `{}`. A parsed document yields exactly its configuration. Only a malformed metafield makes the read fail, and it fails with `SyntaxError`. |
| `ProductDiscount.Truthy` | extensions/product-discount-js/src/index.js:47 | A missing flag counts as false; a present flag counts as its own value. |
| `ProductDiscount.Qualifies` | extensions/product-discount-js/src/index.js:47 | Only product-variant lines qualify. A variant whose product is flagged `deny` never qualifies, whatever `allow` says. Otherwise it qualifies exactly when `allow` is true. |
| `ProductDiscount.BuyerAuthenticated` | extensions/product-discount-js/src/index.js:63 | A missing buyer identity counts as not authenticated. A present identity counts as its `isAuthenticated` flag. |
| `ProductDiscount.ToTarget` | extensions/product-discount-js/src/index.js:48-55 | The target carries the id of the line's variant. |
| `ProductDiscount.Targets` | extensions/product-discount-js/src/index.js:45-55 | There are never more targets than lines. The target list is empty exactly when no line qualifies. |
| `ProductDiscount.TargetsAppend` | extensions/product-discount-js/src/index.js:45-47 | Each line is judged independently of the others. The targets of `a + b` are the targets of `a` followed by those of `b`. |
| `ProductDiscount.QualifyingPositions` | extensions/product-discount-js/src/index.js:47 | Lists the qualifying lines' positions in strictly increasing order. The list is complete: every qualifying position is in it. |
| `ProductDiscount.TargetsFollowLines` | extensions/product-discount-js/src/index.js:45-55 | There is one target per qualifying line, in cart-line order. Target k is the variant of the k-th qualifying line. |
| `ProductDiscount.TargetMembership` | extensions/product-discount-js/src/index.js:47-54 | A variant id is targeted if and only if some qualifying line holds that variant. |
| `ProductDiscount.DeniedLineIgnored` | extensions/product-discount-js/src/index.js:47 | A line whose product is flagged `deny` adds no target, even when it is also flagged `allow`. |
| `NumberFormat.Render` | extensions/product-discount-js/src/index.js:72 | The percentage text is non-empty. It starts with `-` exactly for negative values. It is otherwise canonical digits with no leading zero. |
| `NumberFormat.ParseRender` | extensions/product-discount-js/src/index.js:72 | Reading the rendered percentage back gives the configured number. |
| `NumberFormat.RenderInjective` | extensions/product-discount-js/src/index.js:96 | Two percentages have the same text if and only if they are equal. |
| `ProductDiscount.ApplyDiscount` | extensions/product-discount-js/src/index.js:65-78 | The discount result has strategy `First` and exactly one discount. Its targets are the whole target list, and its text reads back as the configured percentage. A missing percentage throws `TypeError`, and nothing else does. |
| `ProductDiscount.Evaluate` | extensions/product-discount-js/src/index.js:23-103 | Every result has strategy `First` and at most one discount. A result with no discount is `EMPTY_DISCOUNT`. A discount covers the full target list, which is non-empty. `SyntaxError` occurs exactly when the metafield is malformed. |
| `ProductDiscount.EvaluateDecides` | extensions/product-discount-js/src/index.js:57-102 | The nested branches equal a flat decision. A discount is due when some line qualifies and, under `"Authenticated"`, the buyer is authenticated. Otherwise the result is `EMPTY_DISCOUNT`. |
| `ProductDiscount.NoQualifyingLineIsEmpty` | extensions/product-discount-js/src/index.js:57-88 | With no qualifying line the result is `EMPTY_DISCOUNT`, whatever the session status, the buyer and the percentage. |
| `ProductDiscount.AuthenticatedStatusNeedsBuyer` | extensions/product-discount-js/src/index.js:57-81 | Under `"Authenticated"`, a buyer who is missing or not authenticated gets `EMPTY_DISCOUNT`, even when lines qualify. |
| `ProductDiscount.AuthenticatedBuyerDiscounted` | extensions/product-discount-js/src/index.js:57-78 | Under `"Authenticated"`, an authenticated buyer with a qualifying line gets exactly one discount over all targets, at the configured percentage. |
| `ProductDiscount.OtherStatusDiscounted` | extensions/product-discount-js/src/index.js:83-102 | Under any other status, a cart with a qualifying line gets exactly one discount over all targets, at the configured percentage. |
| `ProductDiscount.OtherStatusIgnoresBuyer` | extensions/product-discount-js/src/index.js:83-102 | Under any other status, changing the buyer identity does not change the result. |
| `ProductDiscount.MissingConfiguration` | extensions/product-discount-js/src/index.js:33-102 | Without a stored configuration, the result is `EMPTY_DISCOUNT` when no line qualifies. Otherwise the function throws `TypeError` on the missing percentage. |
| `ProductDiscount.EvaluateFails` | extensions/product-discount-js/src/index.js:33-102 | The function throws exactly in two cases: the metafield is malformed, or a discount is due but no percentage is configured. |

## Left out

- JSON parsing of the metafield: the model receives the parsed configuration, or `Malformed` for text `JSON.parse` rejects.
- JSON documents that parse to `null`: in that case reading `sessionStatus` throws. Documents that parse to other non-objects are also not modelled.
- Non-integral percentages: `percentage` is an integer. Floating point and JavaScript's rendering of fractions are not modelled.
- `NumberFormat.Render`: writes every digit of any integer. For magnitudes above 2^53 this differs from `toString()`. There, not every integer is a JavaScript number, and `toString()` prints the shortest digits that identify the double, padded with zeros, or uses exponent notation from 10^21.
- Percentages stored as JSON strings: the admin routes store a number, so only numbers are modelled.
- The `console.error` diagnostic logging: it has no effect on the result.
- The generated API types and the `DiscountApplicationStrategy` enum: `First` stands in for the one strategy used.
- `discountTags` and `discardedTags`: the configuration carries them but the function never reads them, so `Configuration` omits them.
- The commented-out quantity check and the commented-out older branch: they are dead code.
- The admin routes that create and edit the discount: they are UI and API plumbing outside this function.
