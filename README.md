# Outfit generator and token guard, modelled in Dafny

This project models the two pieces of logic at the centre of a wardrobe
application's back end.

* **`generateFit`** (`controllers/fitController.js`) builds a random outfit
  from the owner's items in four steps:
  1. Every item is sorted into one of four buckets (tops, bottoms, shoes,
     accessories). A case-insensitive keyword pattern is matched against the
     item's *name*, and the first matching rule wins. An item that no rule
     matches goes into no bucket.
  2. Each bucket is narrowed by the request's colour, pattern and style
     words. `matchesFilter` looks for them in the lower-cased name as well.
  3. One slot per bucket is filled by a random pick from the narrowed
     bucket.
  4. When the narrowed bucket is empty, the slot falls back to a pick from
     the whole bucket if `fullRandom` is set, and is `null` otherwise. The
     outfit's keys are the bucket keys minus their last character: `top`,
     `bottom`, `shoe`, `accessorie`.
* **`verifyToken`** (`middleware/verifyToken.js`) is the guard in front of
  the protected routes. It makes a chain of early-return checks:
  1. The `Authorization` header must be present.
  2. The header must start with `Bearer `.
  3. The token, `split(" ")[1]`, must be non-empty.
  4. The signing secret must be configured.

  It then calls `jwt.verify` and maps a thrown error to a status by the
  error's name: 401 for an expired token, 403 for an invalid one, 500 for
  anything else.

Modules:

* `Wrappers`: `Option`.
* `Text`: ASCII lower-casing, `startsWith`, `includes`, and `split(" ")`
  with its round trip `Join(Split(s)) == s`.
* `Seqs`: `Array.prototype.filter` and the subsequence order.
* `FitController`: the controller. It has pure specification functions
  (`Classify`, `Bucket`, `MatchesFilter`, `FilteredBucket`, `PickRandom`,
  `ResolveSlot`, `Slot`) and methods for its three loops (`BuildBuckets`,
  `FilterBuckets`, `AssembleOutfit`), which are composed in `GenerateFit`.
  Each method is proved against the specification functions.
* `VerifyTokenMiddleware`: the middleware as a pure function. It returns the
  replies sent, the value left in `req.user` and the number of `next()`
  calls.

`Math.random()` is modelled as a draw `r` with `0 <= r < 1`, one draw per
slot. `jwt.verify` is modelled as a function parameter that either returns a
payload or throws a named error. `req.headers.authorization` and
`process.env.JWT_SECRET` are modelled as `Option<string>` parameters.

The code differs from what the item schema (`models/Item.js`, with its
`category`, `color`, `pattern` and `style` fields) suggests; the model follows
the code:

* **Classification uses the name.** Items are classified by keywords in
  their *name*, not by their stored category field. The filters also match
  against the name.
* **The `fullRandom` fallback never widens the choice.** Under `fullRandom`,
  `matchesFilter` accepts every item, so each filtered bucket is its whole
  bucket (`FullRandomKeepsBucket`). The fallback to the unfiltered bucket
  therefore only ever sees an empty bucket, and the slot is a plain pick
  from the bucket (`FullRandomSlotIsBucketPick`). No filter is ever relaxed.
* **The first matching rule wins.** A name with keywords of two rules goes
  to the earlier rule in `tops`, `bottoms`, `shoes`, `accessories` order.
  For example, `"Cap Sleeve Top"` is a top (`EarlierRuleWins`).

## Model

| member | source | states |
|---|---|---|
| Text.Lower | controllers/fitController.js:13-25 | `toLowerCase` restricted to ASCII letters: keeps the length, turns each ASCII capital into its small letter, leaves every other character alone and leaves no ASCII capital behind |
| Text.StartsWith | middleware/verifyToken.js:13 | `startsWith` holds exactly when the prefix fits and agrees character by character with the start of the string |
| Text.Contains | controllers/fitController.js:17 | `includes`: a scan from the left that tries every start position (properties in `ContainsIff`, `ContainsOccurs`, `OccursContains`) |
| Text.ContainsIff | controllers/fitController.js:17 | `includes` holds exactly when the needle occurs at some index of the string |
| Text.ContainsOccurs | controllers/fitController.js:17 | when `includes` succeeds, the needle occurs at some index |
| Text.OccursContains | controllers/fitController.js:17 | an occurrence at any index makes `includes` succeed |
| Text.AnyIncluded | controllers/fitController.js:17 | `some(... includes ...)`: a short-circuit scan over the needles (properties in `AnyIncludedIff`, `AnyIncludedLowered`) |
| Text.AnyIncludedIff | controllers/fitController.js:17 | `some(... includes ...)` holds exactly when some needle of the list occurs in the string |
| Text.AnyIncludedLowered | controllers/fitController.js:16-27 | a dimension check with values lower-cased holds exactly when the name contains some value, lower-cased |
| Text.Split | middleware/verifyToken.js:17 | `split(" ")` always yields at least one field |
| Text.JoinSplit | middleware/verifyToken.js:17 | joining the fields of `split(" ")` with single spaces gives back the header: splitting loses nothing |
| Text.SplitFieldsHaveNoSpace | middleware/verifyToken.js:17 | no field of `split(" ")` contains a space |
| Text.SplitHasSpace | middleware/verifyToken.js:17 | `split(" ")` has a second field exactly when the string holds a space |
| Text.SplitWord | middleware/verifyToken.js:17 | a space-free string splits into itself alone |
| Text.SplitAfterWord | middleware/verifyToken.js:17 | a space-free word followed by a space splits into that word, then the fields of the rest |
| Seqs.Filter | controllers/fitController.js:53-55 | `Array.prototype.filter`: the elements that pass, in order (properties in `FilterAppend`, `FilterMembership`, `FilterIsSubsequence`, `FilterKeepsAll`) |
| Seqs.FilterAppend | controllers/fitController.js:42-49 | pushing one more item extends the filtered sequence by that item exactly when it passes the predicate |
| Seqs.FilterMembership | controllers/fitController.js:53-55 | an element is in the filtered array exactly when it is in the array and passes the predicate |
| Seqs.FilterIsSubsequence | controllers/fitController.js:53-55 | `filter` keeps the relative order of the elements it keeps |
| Seqs.FilterKeepsAll | controllers/fitController.js:53-55 | when every element passes, `filter` returns the array unchanged |
| FitController.Rank | controllers/fitController.js:62 | each category has one position in the enumeration order of the rules and of the outfit loop |
| FitController.SlotKey | controllers/fitController.js:66 | `type.slice(0, -1)`, the outfit key of a bucket (properties in `SlotKeyIsSlice`, `SlotKeysDistinct`, `OutfitKeys`) |
| FitController.SlotKeyIsSlice | controllers/fitController.js:66 | the outfit key is the bucket key without its last character, which is `s` |
| FitController.SlotKeysDistinct | controllers/fitController.js:62-66 | different buckets get different outfit keys |
| FitController.OutfitKeys | controllers/fitController.js:62-66 | the four outfit keys are `top`, `bottom`, `shoe`, `accessorie` |
| Seqs.FirstWhere | controllers/fitController.js:43-47 | the rule loop with `break`: the first element that passes, or none (properties in `FirstWhereSpec`, `FirstInRuleOrder`) |
| Seqs.FirstWhereSpec | controllers/fitController.js:43-48 | a scan that stops at the first hit finds nothing exactly when no element passes; otherwise what it finds passes and no element before it does |
| FitController.FirstInRuleOrder | controllers/fitController.js:43-48 | scanning the rules in `typeRules` order finds nothing exactly when no rule passes; otherwise it finds a passing rule, and no rule of lower rank passes |
| FitController.Keywords | controllers/fitController.js:4-9 | the words of the four `typeRules` alternations; every word is non-empty and has no ASCII capital, so the case-insensitive match is a match against the lower-cased name |
| FitController.RuleMatches | controllers/fitController.js:4-9 | `typeRules[type].test(name)` holds exactly when the lower-cased name contains one of the rule's words |
| FitController.Classify | controllers/fitController.js:42-48 | the bucket the sorting loop chooses: none exactly when no rule matches the name, otherwise one whose rule matches |
| FitController.ClassifySpec | controllers/fitController.js:4-9 | an item has no bucket exactly when no pattern matches its name; otherwise its bucket's pattern matches and no earlier pattern does |
| FitController.ClassifyFirstMatch | controllers/fitController.js:43-47 | the loop that stops at the first matching rule picks `Classify`'s bucket |
| FitController.EarlierRuleWins | controllers/fitController.js:4-9 | "Cap Sleeve Top" matches the accessories pattern too, but is classified as a top |
| FitController.Bucket | controllers/fitController.js:40-49 | `buckets[type]` after the sorting loop: the items classified into that bucket, in input order (properties in `BucketMembership`, `BucketKeepsOrder`, `BucketsPartition`) |
| FitController.BucketStep | controllers/fitController.js:44-45 | one more item extends exactly the bucket it is classified into |
| FitController.BucketMembership | controllers/fitController.js:42-49 | an item is in bucket `c` exactly when it is one of the items and classified as `c` |
| FitController.AtMostOneBucket | controllers/fitController.js:44-46 | the `break` after the first match puts no item into two buckets |
| FitController.UnmatchedInNoBucket | controllers/fitController.js:42-49 | an item whose name matches no pattern is in no bucket |
| FitController.BucketKeepsOrder | controllers/fitController.js:42-49 | each bucket keeps the items' relative order |
| FitController.PoolPartition | controllers/fitController.js:40-49 | any sorting of the items into four buckets or none pools every item exactly as often as it occurs |
| FitController.BucketsPartition | controllers/fitController.js:40-49 | the four buckets plus the unmatched items hold every item exactly as often as the input does |
| FitController.Constrains | controllers/fitController.js:16-24 | `options.<dimension>?.length` is truthy: the dimension is present and non-empty (properties in `DimensionPasses`, `MatchesFilter`) |
| FitController.DimensionPasses | controllers/fitController.js:16-19 | a missing or empty dimension passes; otherwise the name must contain one of its values, lower-cased |
| FitController.MatchesFilter | controllers/fitController.js:12-31 | always true under `fullRandom`; otherwise true exactly when every constraining dimension has a value that the lower-cased name contains |
| FitController.FilteredBucket | controllers/fitController.js:51-56 | `filteredBuckets[type]`: the bucket filtered by `matchesFilter` (properties in `FilteredBucketMembership`, `FullRandomKeepsBucket`) |
| FitController.FilteredBucketMembership | controllers/fitController.js:51-56 | an item is in a filtered bucket exactly when it is one of the items, in that bucket and passes the filter; the filtered bucket keeps the bucket's order |
| FitController.FullRandomKeepsBucket | controllers/fitController.js:15 | under `fullRandom` every filtered bucket is its whole bucket |
| FitController.PickIndex | controllers/fitController.js:59 | `Math.floor(Math.random() * length)` is an index into the array |
| FitController.PickIndexInterval | controllers/fitController.js:59 | index `i` is picked exactly for draws in `[i/n, (i+1)/n)` |
| FitController.PickRandom | controllers/fitController.js:58-59 | `pickRandom` gives `null` exactly for an empty array, else one of its elements |
| FitController.PickRandomUniform | controllers/fitController.js:59 | each element of a non-empty array is picked for every draw in its own interval of width `1/length` |
| FitController.ResolveSlot | controllers/fitController.js:66-71 | a slot is filled exactly when the filtered bucket is non-empty, or `fullRandom` holds and the bucket is non-empty; a non-empty filtered bucket supplies the pick; otherwise the pick comes from the bucket |
| FitController.Slot | controllers/fitController.js:62-71 | the value written to `outfit[type.slice(0, -1)]` for one bucket and its draw (properties in `SlotFilledIff`, `SlotSound`, `FullRandomSlotIsBucketPick`) |
| FitController.SlotFilledIff | controllers/fitController.js:61-72 | a slot is filled exactly when some item of its bucket passes the filter, or `fullRandom` holds and the bucket has an item |
| FitController.SlotSound | controllers/fitController.js:61-72 | a slot holds one of the items, classified into that slot's bucket, and passing the filter unless `fullRandom` holds |
| FitController.FullRandomSlotIsBucketPick | controllers/fitController.js:67-71 | under `fullRandom` the slot is a plain pick from the whole bucket |
| FitController.EmptyWardrobe | controllers/fitController.js:67-71 | no items give an empty slot for every bucket, whatever the options |
| FitController.OneColour | controllers/fitController.js:16-19 | with a single colour and no other filter, a name passes exactly when it contains that colour, case-insensitively |
| FitController.TwoTopsOneColour | controllers/fitController.js:51-56 | two tops under a one-colour filter leave those whose name contains the colour, in order |
| FitController.OnlySecondTopMatches | controllers/fitController.js:66-71 | when only the second of two tops has the colour, the top slot is that item for every draw |
| FitController.NoTopMatches | controllers/fitController.js:66-71 | when neither top has the colour, the top slot is `null`, unless `fullRandom` holds, and then it is one of the two |
| FitController.PlaceItem | controllers/fitController.js:42-48 | the `forEach` callback pushes the item onto the bucket of the first matching rule, or onto none, and leaves every other bucket unchanged |
| FitController.BuildBuckets | controllers/fitController.js:40-49 | the sorting loop leaves every bucket equal to `Bucket(items, c)` |
| FitController.FilterBuckets | controllers/fitController.js:51-56 | the filtering loop gives every bucket key its bucket filtered by `matchesFilter`, and no other key |
| FitController.OutfitStep | controllers/fitController.js:62-71 | writing the next bucket's slot under its own key keeps every slot written so far, and the keys grow by exactly that key |
| FitController.AssembleOutfit | controllers/fitController.js:61-72 | the outfit has exactly the keys of the four buckets, each resolved from its own filtered and unfiltered bucket and its own draw |
| FitController.GenerateFit | controllers/fitController.js:35-74 | the outfit has exactly the four keys, each holding `Slot(items, options, c, draw)` for its bucket |
| VerifyTokenMiddleware.Truthy | middleware/verifyToken.js:8-23 | the truthiness tests `!authHeader`, `!token` and `!process.env.JWT_SECRET`: a string that may be `undefined` is truthy when present and non-empty (properties in `MissingHeaderRejected`, `EmptyTokenRejected`, `SecretCheckedLast`) |
| VerifyTokenMiddleware.HeaderToken | middleware/verifyToken.js:8-21 | the token when the header passes its three guards, else none (properties in `SecretCheckedLast`, `AcceptedIff`) |
| VerifyTokenMiddleware.SecondField | middleware/verifyToken.js:17 | `split(" ")[1]` is defined exactly when the header holds a space, and is then free of spaces |
| VerifyTokenMiddleware.ErrorReply | middleware/verifyToken.js:34-46 | 401 exactly for `TokenExpiredError`, 403 exactly for `JsonWebTokenError`, 500 for any other name |
| VerifyTokenMiddleware.Settle | middleware/verifyToken.js:28-45 | once `jwt.verify` returns or throws, exactly one of reply or `next()` happens: `next()` with `req.user` set to the payload when it returns, the reply chosen by the error name when it throws |
| VerifyTokenMiddleware.VerifyToken | middleware/verifyToken.js:3-47 | every run sends exactly one reply or calls `next()` once, never both; `req.user` is set exactly when `next()` is called |
| VerifyTokenMiddleware.MissingHeaderRejected | middleware/verifyToken.js:8-10 | a missing or empty header gets 401 "Authorization header missing" |
| VerifyTokenMiddleware.PrefixRequired | middleware/verifyToken.js:13-15 | a header not starting with the case-sensitive `Bearer ` gets 401 "Invalid authorization format" |
| VerifyTokenMiddleware.TokenAfterPrefix | middleware/verifyToken.js:17 | the token is the first space-separated field after `Bearer ` |
| VerifyTokenMiddleware.TokenIsFirstWord | middleware/verifyToken.js:17 | a space-free word after `Bearer ` is the token, whatever follows the next space |
| VerifyTokenMiddleware.EmptyTokenRejected | middleware/verifyToken.js:17-21 | a header that is `Bearer ` alone, or has a second space right after it (`Bearer  abc`), carries an empty token and gets 401 "No token provided" |
| VerifyTokenMiddleware.FirstWordVerified | middleware/verifyToken.js:13-28 | for `Bearer `, a non-empty space-free word and any tail after a space, with a secret set, the outcome is that of `jwt.verify` on the word |
| VerifyTokenMiddleware.ExtraFieldIgnored | middleware/verifyToken.js:17-28 | for `Bearer abc def` the token passed to `jwt.verify` is `abc` |
| VerifyTokenMiddleware.SecretCheckedLast | middleware/verifyToken.js:23-26 | the 500 "Server configuration error" reply is sent exactly when the header passed its three guards and the secret is missing or empty |
| VerifyTokenMiddleware.AcceptedIff | middleware/verifyToken.js:28-33 | `next()` is called exactly when the header yields a token, the secret is set and `jwt.verify` returns; `req.user` is then the payload and no reply is sent |
| VerifyTokenMiddleware.ThrownErrorReplied | middleware/verifyToken.js:34-45 | an error thrown by `jwt.verify` becomes the single reply chosen by its name, without `next()` |

## Left out

- `Item.find` (the database query, awaited) is not modelled: `GenerateFit` takes the fetched items as a parameter. `models/Item.js` is not part of this model.
- The `try`/`catch` of `generateFit` and its 500 reply "Server error generating fit." are not modelled. Within the modelled inputs no step throws. A filter dimension that is not a list of strings (a string such as `"red"`, whose `length` is truthy but which has no `some`, or a list with a non-string element, which has no `toLowerCase`) makes `matchesFilter` throw, and the catch replies 500; this error path is not modelled. `console.error` logging has no effect on the result.
- `res.json({ outfit })` is not modelled: `GenerateFit` returns the outfit map itself.
- Text.Lower: only ASCII capitals are lower-cased, and the length never changes. JavaScript's `toLowerCase` also lower-cases other Unicode letters (`"É"` becomes `"é"`) and can change the length (`"İ"` becomes two code units), so the contract's "same length, every other character unchanged" holds for the model but not for JavaScript on such input.
- FitController.MatchesFilter: `toLowerCase` is modelled on ASCII letters only (`Text.Lower`). JavaScript also lower-cases other Unicode letters, so names and filter words outside ASCII may compare differently. The keyword patterns are unaffected: their case-insensitive match over lower-case ASCII words is exactly ASCII lower-casing.
- FitController.MatchesFilter: `fullRandom` is a boolean and each filter dimension is a list of strings or absent. JavaScript truthiness of other request-body values, and non-string list elements, are not modelled.
- FitController.PickIndex: real arithmetic is used for `Math.random() * length`. IEEE double rounding is not modelled, and the source of randomness is outside the model.
- FitController.GenerateFit: takes one draw per slot. In the code, `Math.random()` is consumed only by the slots that actually pick; that ordering of a shared random stream is not modelled.
- VerifyTokenMiddleware.VerifyToken: `jwt.verify` is a parameter. Signature checking, expiry and the payload's shape are not part of this model.
- VerifyTokenMiddleware.VerifyToken: `next()` is assumed not to throw. An exception from a later handler, which the catch block would turn into a reply, is not modelled.
- The `console.error` calls in the middleware are not modelled (logging only).
- Item storage, authentication routes, uploads and server set-up (`config/`, `routes/`, `models/`, `server.js`, `controllers/itemController.js`) are not part of this model.
