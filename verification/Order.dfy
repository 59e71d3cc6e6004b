/** Byte strings and the two orders in which the trees compare their keys. */
module Order {

  type byte = x: int | 0 <= x < 256
  type bytes = seq<byte>

  /** What a tree node is ordered by: the 32-bit hash of its key, then the key itself. */
  datatype Tag = Tag(hash: nat, key: bytes)

  /** `LengthFirst` breaks hash ties by key length and then by bytes; `BytesFirst` by bytes alone. */
  datatype Rule = LengthFirst | BytesFirst

  function Sign(a: int, b: int): int {
    if a < b then -1 else if a > b then 1 else 0
  }

  /** The contract of ngx_memn2cmp: lexicographic comparison, a proper prefix being smaller. */
  function Compare(a: bytes, b: bytes): int {
    if a == [] || b == [] then Sign(|a|, |b|)
    else if a[0] != b[0] then Sign(a[0], b[0])
    else Compare(a[1..], b[1..])
  }

  function CompareKeys(rule: Rule, a: bytes, b: bytes): int {
    if rule == LengthFirst && |a| != |b| then Sign(|a|, |b|) else Compare(a, b)
  }

  function CompareTags(rule: Rule, a: Tag, b: Tag): int {
    if a.hash != b.hash then Sign(a.hash, b.hash) else CompareKeys(rule, a.key, b.key)
  }

  predicate Before(rule: Rule, a: Tag, b: Tag) {
    CompareTags(rule, a, b) < 0
  }

  lemma {:induction false} CompareAntisymmetric(a: bytes, b: bytes)
    ensures Compare(a, b) == -Compare(b, a)
    ensures Compare(a, b) == 0 <==> a == b
  {
    if a == [] || b == [] {
    } else {
      CompareAntisymmetric(a[1..], b[1..]);
      assert a == [a[0]] + a[1..] && b == [b[0]] + b[1..];
    }
  }

  lemma {:induction false} CompareTransitive(a: bytes, b: bytes, c: bytes)
    requires Compare(a, b) <= 0 && Compare(b, c) <= 0
    ensures Compare(a, c) <= 0
  {
    if a == [] || b == [] || c == [] {
    } else if a[0] == b[0] == c[0] {
      CompareTransitive(a[1..], b[1..], c[1..]);
    }
  }

  /** `a` and `b` agree up to `k`, where `a` ends or has the smaller byte. */
  predicate SmallerAt(a: bytes, b: bytes, k: nat) {
    k <= |a| && k < |b| && a[..k] == b[..k] && (k == |a| || a[k] < b[k])
  }

  lemma SmallerHead(a: bytes, b: bytes, k: nat)
    requires a != [] && b != []
    ensures SmallerAt(a, b, k) ==> k == 0 || a[0] == b[0]
  {
    if 0 < k <= |a| && k <= |b| {
      assert a[..k][0] == a[0] && b[..k][0] == b[0];
    }
  }

  /** The comparison is that of a dictionary. */
  lemma {:induction false} CompareIsLexicographic(a: bytes, b: bytes)
    ensures Compare(a, b) < 0 <==> exists k: nat :: SmallerAt(a, b, k)
  {
    if a == [] || b == [] {
      if a == [] && b != [] { assert SmallerAt(a, b, 0); }
    } else if a[0] != b[0] {
      if a[0] < b[0] { assert SmallerAt(a, b, 0); }
      forall k: nat ensures SmallerAt(a, b, k) ==> k == 0 { SmallerHead(a, b, k); }
    } else {
      var c, d := a[1..], b[1..];
      CompareIsLexicographic(c, d);
      if k: nat :| SmallerAt(c, d, k) {
        assert a[..k + 1] == [a[0]] + c[..k] && b[..k + 1] == [b[0]] + d[..k];
        assert SmallerAt(a, b, k + 1);
      }
      if k: nat :| SmallerAt(a, b, k) {
        assert k > 0 && c[..k - 1] == a[..k][1..] && d[..k - 1] == b[..k][1..];
        assert SmallerAt(c, d, k - 1);
      }
    }
  }

  /** The two rules, told apart: by hash, then in a dictionary, or by length before that. */
  lemma RulesMean(a: Tag, b: Tag)
    ensures Before(BytesFirst, a, b) <==> a.hash < b.hash || (a.hash == b.hash && exists k: nat :: SmallerAt(a.key, b.key, k))
    ensures Before(LengthFirst, a, b) <==>
      a.hash < b.hash
      || (a.hash == b.hash && (|a.key| < |b.key| || (|a.key| == |b.key| && exists k: nat :: SmallerAt(a.key, b.key, k))))
  {
    CompareIsLexicographic(a.key, b.key);
  }

  /** Both rules are total orders on tags. */
  lemma TagsTotal(rule: Rule, a: Tag, b: Tag)
    ensures CompareTags(rule, a, b) == -CompareTags(rule, b, a)
    ensures CompareTags(rule, a, b) == 0 <==> a == b
  {
    CompareAntisymmetric(a.key, b.key);
  }

  lemma TagsTransitive(rule: Rule, a: Tag, b: Tag, c: Tag)
    requires !Before(rule, b, a) && !Before(rule, c, b)
    ensures !Before(rule, c, a)
  {
    TagsTotal(rule, a, b);
    TagsTotal(rule, b, c);
    TagsTotal(rule, a, c);
    if a.hash == b.hash == c.hash && Compare(a.key, b.key) <= 0 && Compare(b.key, c.key) <= 0 {
      CompareTransitive(a.key, b.key, c.key);
    }
  }

  /** The two rules put every pair of these tags in the same order. */
  ghost predicate RulesAgree(tags: set<Tag>) {
    forall a, b :: a in tags && b in tags ==> (Before(LengthFirst, a, b) <==> Before(BytesFirst, a, b))
  }

  /** A condition that is easier to meet than to check: a hash never shared by keys of two lengths. */
  ghost predicate HashFixesLength(tags: set<Tag>) {
    forall a, b :: a in tags && b in tags && a.hash == b.hash ==> |a.key| == |b.key|
  }

  lemma HashFixesLengthSuffices(tags: set<Tag>)
    requires HashFixesLength(tags)
    ensures RulesAgree(tags)
  {
  }
}
