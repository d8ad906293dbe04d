/** Grouping purchases by category and the value of a group. */
module Buckets {
  import opened Category
  import opened Records
  import opened Seqs

  /** `Bucket`: a category and the purchases of that category, in input order. */
  datatype Bucket = Bucket(productType: ProductType, purchases: seq<Purchase>)

  function TypeOf(p: Purchase): ProductType {
    p.product.productType
  }

  /** The purchases of category `t`, in input order. */
  function OfType(ps: seq<Purchase>, t: ProductType): (r: seq<Purchase>)
    ensures |r| <= |ps|
    ensures forall i :: 0 <= i < |r| ==> TypeOf(r[i]) == t
  {
    if ps == [] then []
    else
      var last := ps[|ps| - 1];
      OfType(ps[..|ps| - 1], t) + (if TypeOf(last) == t then [last] else [])
  }

  /** A purchase is in the group of `t` exactly when it is in the input and has category `t`. */
  lemma {:induction false} OfTypeMembers(ps: seq<Purchase>, t: ProductType, p: Purchase)
    ensures p in OfType(ps, t) <==> p in ps && TypeOf(p) == t
  {
    if ps != [] {
      var pre := ps[..|ps| - 1];
      OfTypeMembers(pre, t, p);
      LastSplit(ps);
    }
  }

  /** Filtering a concatenation filters each part: the relative order of the purchases is kept. */
  lemma {:induction false} OfTypeAppend(a: seq<Purchase>, b: seq<Purchase>, t: ProductType)
    ensures OfType(a + b, t) == OfType(a, t) + OfType(b, t)
    decreases |b|
  {
    if b != [] {
      var b' := b[..|b| - 1];
      AppendDropLast(a, b);
      OfTypeAppend(a, b', t);
    } else {
      assert a + b == a;
    }
  }

  /** One more purchase of the input lands in its own category's bucket and in no other. */
  lemma OfTypeNext(ps: seq<Purchase>, i: nat, t: ProductType)
    requires i < |ps|
    ensures OfType(ps[..i + 1], t) == OfType(ps[..i], t) + (if TypeOf(ps[i]) == t then [ps[i]] else [])
  {
    TakeOneMore(ps, i);
  }

  /** The sizes of the eight per-category groups add up to the number of purchases. */
  function GroupSizes(ps: seq<Purchase>): nat {
    |OfType(ps, Food)| + |OfType(ps, Culture)| + |OfType(ps, Technology)| + |OfType(ps, Education)|
    + |OfType(ps, Travel)| + |OfType(ps, Presents)| + |OfType(ps, Style)| + |OfType(ps, Other)|
  }

  lemma {:induction false} GroupSizesCount(ps: seq<Purchase>)
    ensures GroupSizes(ps) == |ps|
  {
    if ps != [] {
      GroupSizesCount(ps[..|ps| - 1]);
    }
  }

  /**
    * Every purchase is in exactly one group: the group of its own category
    * holds it as many times as the input does, every other group not at all.
    */
  lemma {:induction false} OfTypeCount(ps: seq<Purchase>, t: ProductType, p: Purchase)
    ensures multiset(OfType(ps, t))[p] == if TypeOf(p) == t then multiset(ps)[p] else 0
  {
    if ps != [] {
      var pre, last := ps[..|ps| - 1], ps[|ps| - 1];
      OfTypeCount(pre, t, p);
      LastSplit(ps);
      assert multiset(ps) == multiset(pre) + multiset{last};
    }
  }

  /**
    * `sort_type_buckets`: one pass over the purchases, pushing each onto the
    * bucket of its category; the eight buckets come out in declaration order.
    */
  method SortTypeBuckets(purchases: seq<Purchase>) returns (buckets: seq<Bucket>)
    ensures |buckets| == |AllTypes|
    ensures forall i :: 0 <= i < |buckets| ==>
              buckets[i].productType == AllTypes[i] && buckets[i].purchases == OfType(purchases, AllTypes[i])
    ensures |buckets[0].purchases| + |buckets[1].purchases| + |buckets[2].purchases| + |buckets[3].purchases|
            + |buckets[4].purchases| + |buckets[5].purchases| + |buckets[6].purchases| + |buckets[7].purchases|
            == |purchases|
  {
    var food, culture, technology, education := [], [], [], [];
    var travel, presents, style, other := [], [], [], [];
    var i := 0;
    while i < |purchases|
      invariant 0 <= i <= |purchases|
      invariant food == OfType(purchases[..i], Food) && culture == OfType(purchases[..i], Culture)
      invariant technology == OfType(purchases[..i], Technology) && education == OfType(purchases[..i], Education)
      invariant travel == OfType(purchases[..i], Travel) && presents == OfType(purchases[..i], Presents)
      invariant style == OfType(purchases[..i], Style) && other == OfType(purchases[..i], Other)
    {
      var purchase := purchases[i];
      forall t: ProductType
        ensures OfType(purchases[..i + 1], t) == OfType(purchases[..i], t) + (if TypeOf(purchase) == t then [purchase] else [])
      {
        OfTypeNext(purchases, i, t);
      }
      match purchase.product.productType {
        case Food => food := food + [purchase];
        case Culture => culture := culture + [purchase];
        case Technology => technology := technology + [purchase];
        case Education => education := education + [purchase];
        case Travel => travel := travel + [purchase];
        case Presents => presents := presents + [purchase];
        case Style => style := style + [purchase];
        case Other => other := other + [purchase];
      }
      i := i + 1;
    }
    TakeAll(purchases);
    buckets := [Bucket(Food, food), Bucket(Culture, culture), Bucket(Technology, technology),
                Bucket(Education, education), Bucket(Travel, travel), Bucket(Presents, presents),
                Bucket(Style, style), Bucket(Other, other)];
    GroupSizesCount(purchases);
  }

  /** The reference sum of purchase values. */
  function SumValues(ps: seq<Purchase>): int {
    if ps == [] then 0 else Value(ps[0]) + SumValues(ps[1..])
  }

  lemma {:induction false} SumValuesAppend(a: seq<Purchase>, b: seq<Purchase>)
    ensures SumValues(a + b) == SumValues(a) + SumValues(b)
    decreases |a|
  {
    if a != [] {
      AppendDropFirst(a, b);
      SumValuesAppend(a[1..], b);
    } else {
      assert a + b == b;
    }
  }

  /** `Iterator::fold` with `acc + purchase.value()`: the accumulator plus the sum of the values. */
  function FoldValue(acc: int, ps: seq<Purchase>): (v: int)
    ensures v == acc + SumValues(ps)
    decreases |ps|
  {
    if ps == [] then acc else FoldValue(acc + Value(ps[0]), ps[1..])
  }

  /**
    * `eval_bucket_value`: the sum of price times quantity over the bucket,
    * 0 for an empty one, and never negative when no price is.
    */
  function BucketValue(b: Bucket): (v: int)
    ensures v == SumValues(b.purchases)
    ensures b.purchases == [] ==> v == 0
  {
    FoldValue(0, b.purchases)
  }

  /** With no negative price, a bucket's value is not negative. */
  lemma {:induction false} NonNegativeValue(ps: seq<Purchase>)
    requires forall i :: 0 <= i < |ps| ==> ps[i].product.price >= 0
    ensures SumValues(ps) >= 0
  {
    if ps != [] {
      NonNegativeValue(ps[1..]);
    }
  }

  /** Adding one purchase to the input adds its value to its own group only. */
  lemma SumOfTypeStep(ps: seq<Purchase>, t: ProductType)
    requires ps != []
    ensures SumValues(OfType(ps, t)) == SumValues(OfType(ps[..|ps| - 1], t))
                                       + (if TypeOf(ps[|ps| - 1]) == t then Value(ps[|ps| - 1]) else 0)
  {
    var last := ps[|ps| - 1];
    SumValuesAppend(OfType(ps[..|ps| - 1], t), if TypeOf(last) == t then [last] else []);
  }

  /** The values of the eight groups add up to the value of all purchases. */
  lemma {:induction false} GroupValuesTotal(ps: seq<Purchase>)
    ensures SumValues(OfType(ps, Food)) + SumValues(OfType(ps, Culture)) + SumValues(OfType(ps, Technology))
            + SumValues(OfType(ps, Education)) + SumValues(OfType(ps, Travel)) + SumValues(OfType(ps, Presents))
            + SumValues(OfType(ps, Style)) + SumValues(OfType(ps, Other)) == SumValues(ps)
  {
    if ps != [] {
      var pre, last := ps[..|ps| - 1], ps[|ps| - 1];
      GroupValuesTotal(pre);
      LastSplit(ps);
      SumValuesAppend(pre, [last]);
      SumOfTypeStep(ps, Food);
      SumOfTypeStep(ps, Culture);
      SumOfTypeStep(ps, Technology);
      SumOfTypeStep(ps, Education);
      SumOfTypeStep(ps, Travel);
      SumOfTypeStep(ps, Presents);
      SumOfTypeStep(ps, Style);
      SumOfTypeStep(ps, Other);
    }
  }
}
