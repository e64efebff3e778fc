/**
 * The outfit generator behind `generateFit`: sort the owner's items into four
 * buckets by keywords found in their names, narrow each bucket by the
 * request's colour, pattern and style words (again matched against the name),
 * and fill each outfit slot by a random pick from the narrowed bucket, falling
 * back to the whole bucket when `fullRandom` is set.
 */
module FitController {
  import opened Wrappers
  import opened Text
  import opened Seqs

  /**
   * A wardrobe item as the controller sees it: an identity and the free-text
   * name. The stored category, colour, pattern and style are never read here.
   */
  datatype Item = Item(id: nat, name: string)

  /**
   * The request body. A dimension is `None` when the body leaves it out;
   * `colors?.length` treats a missing list and an empty one alike.
   */
  datatype Options = Options(
    fullRandom: bool,
    colors: Option<seq<string>>,
    patterns: Option<seq<string>>,
    styles: Option<seq<string>>)

  datatype Category = Tops | Bottoms | Shoes | Accessories

  /** The order in which the keys of `typeRules` (and of `buckets`) are enumerated. */
  const RuleOrder: seq<Category> := [Tops, Bottoms, Shoes, Accessories]

  /** The position of a category in `RuleOrder`. */
  function Rank(c: Category): (n: nat)
    ensures n < |RuleOrder| && RuleOrder[n] == c
  {
    match c
    case Tops => 0
    case Bottoms => 1
    case Shoes => 2
    case Accessories => 3
  }

  /** Rank is the inverse of indexing into `RuleOrder`. */
  lemma RankAt(j: nat)
    requires j < |RuleOrder|
    ensures Rank(RuleOrder[j]) == j
  {
  }

  /** The bucket's key in `typeRules` and `buckets`. */
  function Key(c: Category): string {
    match c
    case Tops => "tops"
    case Bottoms => "bottoms"
    case Shoes => "shoes"
    case Accessories => "accessories"
  }

  /** The outfit's key for a bucket. */
  function SlotKey(c: Category): string {
    match c
    case Tops => "top"
    case Bottoms => "bottom"
    case Shoes => "shoe"
    case Accessories => "accessorie"
  }

  /**
   * The outfit key is `type.slice(0, -1)`: the bucket key without its last
   * character, which is always `s`.
   */
  lemma SlotKeyIsSlice(c: Category)
    ensures SlotKey(c) == Key(c)[..|Key(c)| - 1]
    ensures SlotKey(c) + "s" == Key(c)
  {
  }

  /** The four outfit keys are distinct, so the outfit has one entry per bucket. */
  lemma SlotKeysDistinct(c: Category, d: Category)
    requires c != d
    ensures SlotKey(c) != SlotKey(d)
  {
  }

  /** The outfit keys of the first `j` buckets in rule order. */
  function KeysUpTo(j: nat): set<string>
    requires j <= |RuleOrder|
  {
    set k | 0 <= k < j :: SlotKey(RuleOrder[k])
  }

  /** Each further bucket adds its own key. */
  lemma KeysUpToStep(j: nat)
    requires j < |RuleOrder|
    ensures KeysUpTo(j + 1) == KeysUpTo(j) + {SlotKey(RuleOrder[j])}
  {
    assert SlotKey(RuleOrder[j]) in KeysUpTo(j + 1);
  }

  /** Writing the next bucket's slot under its own key keeps the slots written so far. */
  lemma OutfitStep(outfit: map<string, Option<Item>>, j: nat, slots: Category -> Option<Item>)
    requires j < |RuleOrder|
    requires outfit.Keys == KeysUpTo(j)
    requires forall c :: Rank(c) < j ==> outfit[SlotKey(c)] == slots(c)
    ensures var next := RuleOrder[j];
      var outfit' := outfit[SlotKey(next) := slots(next)];
      outfit'.Keys == KeysUpTo(j + 1) && forall c :: Rank(c) < j + 1 ==> outfit'[SlotKey(c)] == slots(c)
  {
    var next := RuleOrder[j];
    RankAt(j);
    forall c | Rank(c) < j ensures SlotKey(c) != SlotKey(next) {
      SlotKeysDistinct(c, next);
    }
    KeysUpToStep(j);
  }

  /** The outfit keys are `top`, `bottom`, `shoe` and `accessorie`. */
  lemma OutfitKeys()
    ensures KeysUpTo(|RuleOrder|) == {"top", "bottom", "shoe", "accessorie"}
  {
    assert KeysUpTo(0) == {};
    KeysUpToStep(0);
    KeysUpToStep(1);
    KeysUpToStep(2);
    KeysUpToStep(3);
    assert SlotKey(Tops) == "top" && SlotKey(Bottoms) == "bottom";
    assert SlotKey(Shoes) == "shoe" && SlotKey(Accessories) == "accessorie";
  }

  /** The words of each `typeRules` alternation, all lower-case ASCII. */
  function Keywords(c: Category): (words: seq<string>)
    ensures forall k :: 0 <= k < |words| ==> words[k] != "" && Lower(words[k]) == words[k]
  {
    match c
    case Tops => ["top", "shirt", "hoodie", "blouse", "jacket", "tshirt", "sando"]
    case Bottoms => ["pants", "shorts", "jeans", "skirt", "bottom", "trousers", "joggers"]
    case Shoes => ["shoes", "sneakers", "boots", "heels", "slippers"]
    case Accessories => ["hat", "cap", "necklace", "bracelet", "earrings", "ring", "bag", "accessory"]
  }

  /**
   * `typeRules[c].test(name)`. The pattern is a case-insensitive alternation
   * of lower-case literal words, so it matches exactly when the name, with
   * its ASCII letters lower-cased, contains one of the words.
   */
  predicate RuleMatches(c: Category, name: string): (b: bool)
    ensures b <==> exists k :: 0 <= k < |Keywords(c)| && Contains(Lower(name), Keywords(c)[k])
  {
    AnyIncludedIff(Lower(name), Keywords(c));
    AnyIncluded(Lower(name), Keywords(c))
  }

  /** The pattern test of every rule against one name. */
  function RuleTest(name: string): Category -> bool {
    (c: Category) => RuleMatches(c, name)
  }

  /**
   * The bucket an item name is sorted into: the first category, in rule
   * order, whose pattern matches; `None` when no pattern matches.
   */
  function Classify(name: string): (r: Option<Category>)
    ensures r.None? <==> forall c :: !RuleMatches(c, name)
    ensures r.Some? ==> RuleMatches(r.value, name)
  {
    FirstInRuleOrder(RuleTest(name));
    FirstWhere(RuleOrder, RuleTest(name))
  }

  /**
   * `Classify` finds no bucket exactly when no pattern matches; otherwise
   * its bucket's pattern matches and no pattern earlier in rule order does.
   */
  lemma ClassifySpec(name: string)
    ensures Classify(name).None? <==> forall c :: !RuleMatches(c, name)
    ensures Classify(name).Some? ==> RuleMatches(Classify(name).value, name)
    ensures Classify(name).Some? ==>
      forall c :: Rank(c) < Rank(Classify(name).value) ==> !RuleMatches(c, name)
  {
    FirstInRuleOrder(RuleTest(name));
  }

  /** `FirstWhere` over the rule order, for any test of the categories, stated by rank. */
  lemma FirstInRuleOrder(test: Category -> bool)
    ensures FirstWhere(RuleOrder, test).None? <==> forall c :: !test(c)
    ensures FirstWhere(RuleOrder, test).Some? ==> test(FirstWhere(RuleOrder, test).value)
    ensures FirstWhere(RuleOrder, test).Some? ==>
      forall c :: Rank(c) < Rank(FirstWhere(RuleOrder, test).value) ==> !test(c)
  {
    FirstWhereSpec(RuleOrder, test);
    var r := FirstWhere(RuleOrder, test);
    if r.None? {
      forall c ensures !test(c) {
        assert RuleOrder[Rank(c)] == c;
      }
    } else {
      var j :| 0 <= j < |RuleOrder| && RuleOrder[j] == r.value && test(RuleOrder[j]) &&
        forall k :: 0 <= k < j ==> !test(RuleOrder[k]);
      RankAt(j);
      forall c | Rank(c) < j ensures !test(c) {
        assert RuleOrder[Rank(c)] == c;
      }
    }
  }

  /** The rule found by a left-to-right scan that stops at the first match is `Classify`'s answer. */
  lemma ClassifyFirstMatch(name: string, j: nat)
    requires j < |RuleOrder| && RuleMatches(RuleOrder[j], name)
    requires forall k :: 0 <= k < j ==> !RuleMatches(RuleOrder[k], name)
    ensures Classify(name) == Some(RuleOrder[j])
  {
    ClassifySpec(name);
    var r := Classify(name);
    assert r.Some?;
    RankAt(j);
    assert RuleOrder[Rank(r.value)] == r.value;
  }

  /** "Cap Sleeve Top", lower-cased, contains both `top` and `cap`. */
  lemma CapSleeveTopWords()
    ensures Contains(Lower("Cap Sleeve Top"), "top") && Contains(Lower("Cap Sleeve Top"), "cap")
  {
    var lower := Lower("Cap Sleeve Top");
    assert lower == "cap sleeve top";
    ContainsAt(lower, "top", 11);
    assert lower[..3] == "cap";
    ContainsAt(lower, "cap", 0);
  }

  /** A name holding keywords of two rules goes to the earlier rule: "Cap Sleeve Top" is a top, not an accessory. */
  lemma EarlierRuleWins()
    ensures RuleMatches(Accessories, "Cap Sleeve Top")
    ensures Classify("Cap Sleeve Top") == Some(Tops)
  {
    var name := "Cap Sleeve Top";
    CapSleeveTopWords();
    assert Keywords(Tops)[0] == "top";
    AnyIncludedIff(Lower(name), Keywords(Tops));
    assert Keywords(Accessories)[1] == "cap";
    AnyIncludedIff(Lower(name), Keywords(Accessories));
    ClassifyFirstMatch(name, 0);
  }

  /** The bucket an item is sorted into, by its name. */
  function ByName(): Item -> Option<Category> {
    (x: Item) => Classify(x.name)
  }

  /** Whether `sort` puts an item in the bucket for `c`. */
  function Belongs(sort: Item -> Option<Category>, c: Category): Item -> bool {
    (x: Item) => sort(x) == Some(c)
  }

  /** Whether `sort` puts an item in no bucket at all. */
  function Unsorted(sort: Item -> Option<Category>): Item -> bool {
    (x: Item) => sort(x).None?
  }

  /** `buckets[c]` after the `forEach` over all items. */
  function Bucket(items: seq<Item>, c: Category): seq<Item> {
    Filter(items, Belongs(ByName(), c))
  }

  /** One more item extends exactly the bucket it is classified into. */
  lemma BucketStep(items: seq<Item>, x: Item, c: Category)
    ensures Bucket(items + [x], c) == Bucket(items, c) + (if Classify(x.name) == Some(c) then [x] else [])
  {
    FilterAppend(items, x, Belongs(ByName(), c));
  }

  /** One more item extends its own bucket, if any, and no other. */
  lemma BucketsStep(items: seq<Item>, x: Item)
    ensures forall c :: Bucket(items + [x], c) == Bucket(items, c) + (if Classify(x.name) == Some(c) then [x] else [])
  {
    forall c ensures Bucket(items + [x], c) == Bucket(items, c) + (if Classify(x.name) == Some(c) then [x] else []) {
      BucketStep(items, x, c);
    }
  }

  /** An item is in bucket `c` exactly when it is one of the items and its name is classified as `c`. */
  lemma BucketMembership(items: seq<Item>, c: Category, x: Item)
    ensures x in Bucket(items, c) <==> x in items && Classify(x.name) == Some(c)
  {
    FilterMembership(items, Belongs(ByName(), c), x);
  }

  /** No item lands in two buckets. */
  lemma AtMostOneBucket(items: seq<Item>, c: Category, d: Category, x: Item)
    requires x in Bucket(items, c) && x in Bucket(items, d)
    ensures c == d
  {
    BucketMembership(items, c, x);
    BucketMembership(items, d, x);
  }

  /** An item whose name contains no keyword of any rule is in no bucket. */
  lemma UnmatchedInNoBucket(items: seq<Item>, c: Category, x: Item)
    requires forall d :: !RuleMatches(d, x.name)
    ensures x !in Bucket(items, c)
  {
    ClassifySpec(x.name);
    BucketMembership(items, c, x);
  }

  /** Each bucket keeps the relative order of the items. */
  lemma BucketKeepsOrder(items: seq<Item>, c: Category)
    ensures IsSubsequence(Bucket(items, c), items)
  {
    FilterIsSubsequence(items, Belongs(ByName(), c));
  }

  /** The four buckets of a sorting of `items`, and the items it leaves out, pooled. */
  function Pool(items: seq<Item>, sort: Item -> Option<Category>): multiset<Item> {
    multiset(Filter(items, Belongs(sort, Tops))) + multiset(Filter(items, Belongs(sort, Bottoms)))
      + multiset(Filter(items, Belongs(sort, Shoes))) + multiset(Filter(items, Belongs(sort, Accessories)))
      + multiset(Filter(items, Unsorted(sort)))
  }

  /** The first item is pooled exactly once, whatever bucket it is sorted into. */
  lemma PoolFirst(items: seq<Item>, sort: Item -> Option<Category>)
    requires items != []
    ensures Pool(items, sort) == multiset{items[0]} + Pool(items[1..], sort)
  {
    var x, rest := items[0], items[1..];
    var t, b, s, a, u := Belongs(sort, Tops), Belongs(sort, Bottoms), Belongs(sort, Shoes),
      Belongs(sort, Accessories), Unsorted(sort);
    var pt, pb, ps, pa, pu := multiset(Filter(rest, t)), multiset(Filter(rest, b)), multiset(Filter(rest, s)),
      multiset(Filter(rest, a)), multiset(Filter(rest, u));
    var one := multiset{x};
    AddToOnePart(one, pt, pb, ps, pa, pu);
    FilterFirst(items, t);
    FilterFirst(items, b);
    FilterFirst(items, s);
    FilterFirst(items, a);
    FilterFirst(items, u);
    match sort(x)
    case None =>
      assert !t(x) && !b(x) && !s(x) && !a(x) && u(x);
      assert Pool(items, sort) == pt + pb + ps + pa + (one + pu);
    case Some(Tops) =>
      assert t(x) && !b(x) && !s(x) && !a(x) && !u(x);
      assert Pool(items, sort) == (one + pt) + pb + ps + pa + pu;
    case Some(Bottoms) =>
      assert !t(x) && b(x) && !s(x) && !a(x) && !u(x);
      assert Pool(items, sort) == pt + (one + pb) + ps + pa + pu;
    case Some(Shoes) =>
      assert !t(x) && !b(x) && s(x) && !a(x) && !u(x);
      assert Pool(items, sort) == pt + pb + (one + ps) + pa + pu;
    case Some(Accessories) =>
      assert !t(x) && !b(x) && !s(x) && a(x) && !u(x);
      assert Pool(items, sort) == pt + pb + ps + (one + pa) + pu;
  }

  /** Adding to one of five parts adds to their sum. */
  lemma AddToOnePart(one: multiset<Item>, m1: multiset<Item>, m2: multiset<Item>, m3: multiset<Item>,
                     m4: multiset<Item>, m5: multiset<Item>)
    ensures (one + m1) + m2 + m3 + m4 + m5 == one + (m1 + m2 + m3 + m4 + m5)
    ensures m1 + (one + m2) + m3 + m4 + m5 == one + (m1 + m2 + m3 + m4 + m5)
    ensures m1 + m2 + (one + m3) + m4 + m5 == one + (m1 + m2 + m3 + m4 + m5)
    ensures m1 + m2 + m3 + (one + m4) + m5 == one + (m1 + m2 + m3 + m4 + m5)
    ensures m1 + m2 + m3 + m4 + (one + m5) == one + (m1 + m2 + m3 + m4 + m5)
  {
  }

  /** Any sorting into the four buckets partitions the items: each is pooled exactly as often as it occurs. */
  lemma {:induction false} PoolPartition(items: seq<Item>, sort: Item -> Option<Category>)
    ensures Pool(items, sort) == multiset(items)
    decreases |items|
  {
    if items != [] {
      PoolPartition(items[1..], sort);
      PoolFirst(items, sort);
      MultisetFirst(items);
    }
  }

  /**
   * The four buckets and the unmatched items together hold every item
   * exactly as often as the input does: the buckets partition the items.
   */
  lemma BucketsPartition(items: seq<Item>)
    ensures multiset(Bucket(items, Tops)) + multiset(Bucket(items, Bottoms))
      + multiset(Bucket(items, Shoes)) + multiset(Bucket(items, Accessories))
      + multiset(Filter(items, Unsorted(ByName()))) == multiset(items)
  {
    PoolPartition(items, ByName());
  }

  /** Whether a filter dimension constrains at all (`options.colors?.length`). */
  predicate Constrains(dim: Option<seq<string>>) {
    dim.Some? && |dim.value| > 0
  }

  /**
   * One dimension's check: some value of the dimension, lower-cased, is
   * contained in the lower-cased name; skipped when the dimension is absent
   * or empty.
   */
  function DimensionPasses(lower: string, dim: Option<seq<string>>): (b: bool)
    ensures !Constrains(dim) ==> b
    ensures Constrains(dim) ==> (b <==> exists v :: v in dim.value && Contains(lower, Lower(v)))
  {
    if !Constrains(dim) then true
    else
      AnyIncludedLowered(lower, dim.value);
      AnyIncluded(lower, LowerEach(dim.value))
  }

  /**
   * `matchesFilter(name, options)`: always true under `fullRandom`;
   * otherwise the lower-cased name must pass every dimension, where a
   * dimension passes when it is missing or empty, or when the name contains
   * one of its values, lower-cased.
   */
  function MatchesFilter(name: string, options: Options): (b: bool)
    ensures options.fullRandom ==> b
    ensures !options.fullRandom ==>
      (b <==>
        (!Constrains(options.colors) || exists v :: v in options.colors.value && Contains(Lower(name), Lower(v))) &&
        (!Constrains(options.patterns) || exists v :: v in options.patterns.value && Contains(Lower(name), Lower(v))) &&
        (!Constrains(options.styles) || exists v :: v in options.styles.value && Contains(Lower(name), Lower(v))))
  {
    var lower := Lower(name);
    if options.fullRandom then true
    else if !DimensionPasses(lower, options.colors) then false
    else if !DimensionPasses(lower, options.patterns) then false
    else if !DimensionPasses(lower, options.styles) then false
    else true
  }

  /** The `filter` callback: `item => matchesFilter(item.name, options)`. */
  function Passes(options: Options): Item -> bool {
    (x: Item) => MatchesFilter(x.name, options)
  }

  /** `filteredBuckets[c]`. */
  function FilteredBucket(items: seq<Item>, options: Options, c: Category): seq<Item> {
    Filter(Bucket(items, c), Passes(options))
  }

  /**
   * An item is in the filtered bucket `c` exactly when it is one of the
   * items, classified as `c`, and its name passes the filter; the filtered
   * bucket keeps the bucket's order.
   */
  lemma FilteredBucketMembership(items: seq<Item>, options: Options, c: Category, x: Item)
    ensures x in FilteredBucket(items, options, c) <==>
      x in items && Classify(x.name) == Some(c) && MatchesFilter(x.name, options)
    ensures IsSubsequence(FilteredBucket(items, options, c), Bucket(items, c))
  {
    FilterMembership(Bucket(items, c), Passes(options), x);
    BucketMembership(items, c, x);
    FilterIsSubsequence(Bucket(items, c), Passes(options));
  }

  /** Under `fullRandom` the filter drops nothing: each filtered bucket is its whole bucket. */
  lemma FullRandomKeepsBucket(items: seq<Item>, options: Options, c: Category)
    requires options.fullRandom
    ensures FilteredBucket(items, options, c) == Bucket(items, c)
  {
    var b := Bucket(items, c);
    forall i | 0 <= i < |b| ensures Passes(options)(b[i]) {
      assert MatchesFilter(b[i].name, options);
    }
    FilterKeepsAll(b, Passes(options));
  }

  /** `Math.floor(r * n)` for a draw `r` of `Math.random()`: an index into an array of length `n`. */
  function PickIndex(n: nat, r: real): (i: nat)
    requires 0 < n && 0.0 <= r < 1.0
    ensures i < n
  {
    var N := n as real;
    var x := r * N;
    ScaleByPositive(r, N);
    ScaleByPositive(1.0 - r, N);
    assert N - x == (1.0 - r) * N;
    x.Floor
  }

  /** Scaling by a positive real keeps the sign. */
  lemma ScaleByPositive(a: real, b: real)
    requires b > 0.0
    ensures a >= 0.0 ==> a * b >= 0.0
    ensures a > 0.0 ==> a * b > 0.0
  {
  }

  /** Index `i` is picked exactly for draws in `[i/n, (i+1)/n)`, an interval of width `1/n`. */
  lemma PickIndexInterval(n: nat, r: real, i: nat)
    requires 0 < n && 0.0 <= r < 1.0
    ensures PickIndex(n, r) == i <==> (i as real) / (n as real) <= r < ((i + 1) as real) / (n as real)
  {
    var N := n as real;
    DivideBelow(i as real, N, r);
    DivideBelow((i + 1) as real, N, r);
  }

  /** For a positive `N`, `a / N <= r` exactly when `a <= r * N`. */
  lemma DivideBelow(a: real, N: real, r: real)
    requires N > 0.0
    ensures a / N <= r <==> a <= r * N
  {
    var q := a / N;
    assert q * N == a;
    assert r * N - a == (r - q) * N;
    if q <= r {
      assert (r - q) * N >= 0.0;
    } else {
      assert (q - r) * N > 0.0;
    }
  }

  /** `pickRandom(arr)` for the draw `r`: `null` for an empty array, else one of its elements. */
  function PickRandom<T>(arr: seq<T>, r: real): (p: Option<T>)
    requires 0.0 <= r < 1.0
    ensures p.None? <==> arr == []
    ensures p.Some? ==> p.value in arr
  {
    if |arr| > 0 then Some(arr[PickIndex(|arr|, r)]) else None
  }

  /** Every element of a non-empty array is picked for every draw in its own interval of width `1/|arr|`. */
  lemma PickRandomUniform<T>(arr: seq<T>, r: real, i: nat)
    requires i < |arr| && 0.0 <= r < 1.0
    requires (i as real) / (|arr| as real) <= r < ((i + 1) as real) / (|arr| as real)
    ensures PickRandom(arr, r) == Some(arr[i])
  {
    PickIndexInterval(|arr|, r, i);
  }

  /**
   * One outfit slot: a pick from the filtered bucket when it is non-empty,
   * else a pick from the whole bucket under `fullRandom`, else `null`.
   */
  function ResolveSlot(filtered: seq<Item>, original: seq<Item>, fullRandom: bool, r: real): (slot: Option<Item>)
    requires 0.0 <= r < 1.0
    ensures slot.Some? <==> filtered != [] || (fullRandom && original != [])
    ensures filtered != [] ==> slot.Some? && slot.value in filtered
    ensures filtered == [] && slot.Some? ==> slot.value in original
  {
    if |filtered| > 0 then PickRandom(filtered, r)
    else if fullRandom then PickRandom(original, r)
    else None
  }

  /** The slot for bucket `c` given the items, the options and the slot's draw. */
  function Slot(items: seq<Item>, options: Options, c: Category, r: real): Option<Item>
    requires 0.0 <= r < 1.0
  {
    ResolveSlot(FilteredBucket(items, options, c), Bucket(items, c), options.fullRandom, r)
  }

  /**
   * A slot is filled exactly when some item of that bucket passes the
   * filter, or `fullRandom` is set and the bucket has any item at all.
   */
  lemma SlotFilledIff(items: seq<Item>, options: Options, c: Category, r: real)
    requires 0.0 <= r < 1.0
    ensures Slot(items, options, c, r).Some? <==>
      (exists x :: x in items && Classify(x.name) == Some(c) && MatchesFilter(x.name, options)) ||
      (options.fullRandom && exists x :: x in items && Classify(x.name) == Some(c))
  {
    var filtered, bucket := FilteredBucket(items, options, c), Bucket(items, c);
    if filtered != [] {
      FilteredBucketMembership(items, options, c, filtered[0]);
    }
    if bucket != [] {
      BucketMembership(items, c, bucket[0]);
    }
    forall x | x in items && Classify(x.name) == Some(c)
      ensures x in bucket && (MatchesFilter(x.name, options) ==> x in filtered)
    {
      BucketMembership(items, c, x);
      FilteredBucketMembership(items, options, c, x);
    }
  }

  /**
   * What fills a slot is one of the items, classified into that slot's
   * bucket, and, unless `fullRandom` is set, it passes the filter.
   */
  lemma SlotSound(items: seq<Item>, options: Options, c: Category, r: real)
    requires 0.0 <= r < 1.0
    ensures Slot(items, options, c, r).Some? ==>
      var x := Slot(items, options, c, r).value;
      x in items && Classify(x.name) == Some(c) && (!options.fullRandom ==> MatchesFilter(x.name, options))
  {
    var slot := Slot(items, options, c, r);
    if slot.Some? {
      var x := slot.value;
      FilteredBucketMembership(items, options, c, x);
      BucketMembership(items, c, x);
    }
  }

  /** With one colour and no other filter, a name passes exactly when it contains that colour. */
  lemma OneColour(name: string, colour: string)
    ensures MatchesFilter(name, Options(false, Some([colour]), None, None)) <==> Contains(Lower(name), Lower(colour))
  {
    var colours := [colour];
    assert forall v :: v in colours <==> v == colour;
  }

  /**
   * Two tops and a one-colour filter: the filtered tops are those whose
   * lower-cased name contains the colour, in their original order.
   */
  lemma TwoTopsOneColour(a: Item, b: Item, colour: string)
    requires Classify(a.name) == Some(Tops) && Classify(b.name) == Some(Tops)
    ensures FilteredBucket([a, b], Options(false, Some([colour]), None, None), Tops) ==
      (if Contains(Lower(a.name), Lower(colour)) then [a] else []) +
      (if Contains(Lower(b.name), Lower(colour)) then [b] else [])
  {
    var options := Options(false, Some([colour]), None, None);
    FilterPair(a, b, Belongs(ByName(), Tops));
    assert Bucket([a, b], Tops) == [a, b];
    OneColour(a.name, colour);
    OneColour(b.name, colour);
    FilterPair(a, b, Passes(options));
  }

  /**
   * Two tops and a one-colour filter that only the second one's name
   * contains: the top slot is the second one, whatever the draw.
   */
  lemma OnlySecondTopMatches(a: Item, b: Item, colour: string, r: real)
    requires Classify(a.name) == Some(Tops) && Classify(b.name) == Some(Tops)
    requires !Contains(Lower(a.name), Lower(colour)) && Contains(Lower(b.name), Lower(colour))
    requires 0.0 <= r < 1.0
    ensures Slot([a, b], Options(false, Some([colour]), None, None), Tops, r) == Some(b)
  {
    TwoTopsOneColour(a, b, colour);
    assert PickIndex(1, r) == 0;
  }

  /**
   * Two tops and a one-colour filter that neither name contains: the top
   * slot is empty, unless `fullRandom` is set, and then it is one of the two.
   */
  lemma NoTopMatches(a: Item, b: Item, colour: string, r: real)
    requires Classify(a.name) == Some(Tops) && Classify(b.name) == Some(Tops)
    requires !Contains(Lower(a.name), Lower(colour)) && !Contains(Lower(b.name), Lower(colour))
    requires 0.0 <= r < 1.0
    ensures Slot([a, b], Options(false, Some([colour]), None, None), Tops, r) == None
    ensures Slot([a, b], Options(true, Some([colour]), None, None), Tops, r) in {Some(a), Some(b)}
  {
    TwoTopsOneColour(a, b, colour);
    var options := Options(true, Some([colour]), None, None);
    SlotSound([a, b], options, Tops, r);
    SlotFilledIff([a, b], options, Tops, r);
    assert a in [a, b];
  }

  /**
   * Under `fullRandom` the whole-bucket fallback never widens the choice:
   * the filtered bucket already is the whole bucket, so the slot is a plain
   * pick from the bucket.
   */
  lemma FullRandomSlotIsBucketPick(items: seq<Item>, options: Options, c: Category, r: real)
    requires options.fullRandom && 0.0 <= r < 1.0
    ensures Slot(items, options, c, r) == PickRandom(Bucket(items, c), r)
  {
    FullRandomKeepsBucket(items, options, c);
  }

  /** An empty wardrobe gives an empty slot for every bucket, whatever the options. */
  lemma EmptyWardrobe(options: Options, c: Category, r: real)
    requires 0.0 <= r < 1.0
    ensures Slot([], options, c, r) == None
  {
  }

  /**
   * The `forEach` callback: try the rules in order and push the item onto
   * the bucket of the first one that matches, then stop. The item's own
   * bucket, if it has one, grows by the item; every other bucket is left alone.
   */
  method PlaceItem(buckets: map<Category, seq<Item>>, item: Item) returns (buckets': map<Category, seq<Item>>)
    requires forall c :: c in buckets
    ensures forall c :: (c in buckets' &&
      buckets'[c] == buckets[c] + (if Classify(item.name) == Some(c) then [item] else []))
  {
    buckets' := buckets;
    var j := 0;
    while j < |RuleOrder|
      invariant 0 <= j <= |RuleOrder|
      invariant forall k :: 0 <= k < j ==> !RuleMatches(RuleOrder[k], item.name)
    {
      var c := RuleOrder[j];
      if RuleMatches(c, item.name) {
        ClassifyFirstMatch(item.name, j);
        buckets' := buckets[c := buckets[c] + [item]];
        return;
      }
      j := j + 1;
    }
    forall d ensures !RuleMatches(d, item.name) {
      assert RuleOrder[Rank(d)] == d;
    }
    ClassifySpec(item.name);
  }

  /** The `forEach` of `generateFit` that sorts the items into `buckets`, first matching rule wins. */
  method BuildBuckets(allItems: seq<Item>) returns (buckets: map<Category, seq<Item>>)
    ensures forall c :: c in buckets && buckets[c] == Bucket(allItems, c)
  {
    buckets := map[Tops := [], Bottoms := [], Shoes := [], Accessories := []];
    assert allItems[..0] == [];
    forall c ensures c in buckets && buckets[c] == Bucket(allItems[..0], c) {
      assert RuleOrder[Rank(c)] == c;
    }
    for i := 0 to |allItems|
      invariant forall c :: c in buckets && buckets[c] == Bucket(allItems[..i], c)
    {
      var item := allItems[i];
      assert allItems[..i + 1] == allItems[..i] + [item];
      BucketsStep(allItems[..i], item);
      buckets := PlaceItem(buckets, item);
    }
    assert allItems[..|allItems|] == allItems;
  }

  /** The `for...in` loop that fills `filteredBuckets`, one key of `buckets` at a time. */
  method FilterBuckets(buckets: map<Category, seq<Item>>, options: Options)
    returns (filteredBuckets: map<Category, seq<Item>>)
    ensures filteredBuckets.Keys == buckets.Keys
    ensures forall c :: c in buckets ==> filteredBuckets[c] == Filter(buckets[c], Passes(options))
  {
    filteredBuckets := map[];
    var todo := buckets.Keys;
    while todo != {}
      invariant todo <= buckets.Keys
      invariant filteredBuckets.Keys == buckets.Keys - todo
      invariant forall c :: c in filteredBuckets ==> filteredBuckets[c] == Filter(buckets[c], Passes(options))
      decreases todo
    {
      var c :| c in todo;
      filteredBuckets := filteredBuckets[c := Filter(buckets[c], Passes(options))];
      todo := todo - {c};
    }
  }

  /**
   * The `for...of` loop that fills the outfit: the key of bucket `c` gets the
   * slot resolved from `filteredBuckets[c]` and `buckets[c]` with the draw
   * for `c`, and the outfit has no other keys.
   */
  method AssembleOutfit(buckets: map<Category, seq<Item>>, filteredBuckets: map<Category, seq<Item>>,
                        fullRandom: bool, draws: seq<real>)
    returns (outfit: map<string, Option<Item>>)
    requires forall c :: c in buckets && c in filteredBuckets
    requires |draws| == |RuleOrder|
    requires forall j :: 0 <= j < |draws| ==> 0.0 <= draws[j] < 1.0
    ensures outfit.Keys == KeysUpTo(|RuleOrder|)
    ensures forall c :: (SlotKey(c) in outfit &&
      outfit[SlotKey(c)] == ResolveSlot(filteredBuckets[c], buckets[c], fullRandom, draws[Rank(c)]))
  {
    outfit := map[];
    ghost var slots := (c: Category) => ResolveSlot(filteredBuckets[c], buckets[c], fullRandom, draws[Rank(c)]);
    for j := 0 to |RuleOrder|
      invariant outfit.Keys == KeysUpTo(j)
      invariant forall c :: Rank(c) < j ==> outfit[SlotKey(c)] == slots(c)
    {
      var c := RuleOrder[j];
      RankAt(j);
      OutfitStep(outfit, j, slots);
      outfit := outfit[SlotKey(c) := ResolveSlot(filteredBuckets[c], buckets[c], fullRandom, draws[j])];
    }
    forall c ensures SlotKey(c) in outfit {
      assert RuleOrder[Rank(c)] == c;
    }
  }

  /**
   * `generateFit` once the items are fetched: the outfit has exactly the
   * keys `top`, `bottom`, `shoe` and `accessorie`, and each holds the slot
   * resolved from its own bucket with its own draw of `Math.random()`.
   */
  method GenerateFit(allItems: seq<Item>, options: Options, draws: seq<real>)
    returns (outfit: map<string, Option<Item>>)
    requires |draws| == |RuleOrder|
    requires forall j :: 0 <= j < |draws| ==> 0.0 <= draws[j] < 1.0
    ensures outfit.Keys == {"top", "bottom", "shoe", "accessorie"}
    ensures forall c :: SlotKey(c) in outfit && outfit[SlotKey(c)] == Slot(allItems, options, c, draws[Rank(c)])
  {
    var buckets := BuildBuckets(allItems);
    var filteredBuckets := FilterBuckets(buckets, options);
    outfit := AssembleOutfit(buckets, filteredBuckets, options.fullRandom, draws);
    OutfitKeys();
  }
}
