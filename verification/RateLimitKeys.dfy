/** The names of the rate-limit buckets that one event is counted in. */
module RateLimitKeys {
  import opened Strings
  import opened Wrappers

  /** One entry of an event rate limit's `kinds`: a kind, or an inclusive range of kinds. */
  datatype KindItem = Single(kind: nat) | Range(first: nat, last: nat)

  predicate IsEventKindOrRangeMatch(kind: nat, item: KindItem) {
    match item
    case Single(k) => k == kind
    case Range(first, last) => first <= kind <= last
  }

  function ItemString(item: KindItem): string {
    match item
    case Single(k) => Decimal(k)
    case Range(first, last) => "[" + Decimal(first) + "," + Decimal(last) + "]"
  }

  function ItemStrings(items: seq<KindItem>): (r: seq<string>)
    ensures |r| == |items|
    ensures forall i :: 0 <= i < |r| ==> r[i] == ItemString(items[i])
  {
    seq(|items|, i requires 0 <= i < |items| => ItemString(items[i]))
  }

  function KindsString(items: seq<KindItem>): string {
    "[" + Join(ItemStrings(items), ",") + "]"
  }

  function EventKey(pubkey: string, period: nat, kinds: Option<seq<KindItem>>): string {
    var prefix := pubkey + ":events:" + Decimal(period);
    match kinds
    case None => prefix
    case Some(items) => prefix + ":" + KindsString(items)
  }

  /** What may follow an item inside a printed list. */
  predicate EndsItem(s: string) {
    s != "" && (s[0] == ',' || s[0] == ']')
  }

  lemma RangeString(first: nat, last: nat, s: string)
    ensures ItemString(Range(first, last)) + s == "[" + (Decimal(first) + ("," + (Decimal(last) + ("]" + s))))
  {
    RegroupSix("[", Decimal(first), ",", Decimal(last), "]", s);
  }

  lemma RangePrefix(a: nat, b: nat, c: nat, d: nat, s: string, t: string)
    requires ItemString(Range(a, b)) + s == ItemString(Range(c, d)) + t
    ensures a == c && b == d && s == t
  {
    RangeString(a, b, s);
    RangeString(c, d, t);
    var s1, t1 := Decimal(b) + ("]" + s), Decimal(d) + ("]" + t);
    CancelLeft("[", Decimal(a) + ("," + s1), Decimal(c) + ("," + t1));
    DecimalPrefix(a, c, "," + s1, "," + t1);
    CancelLeft(",", s1, t1);
    DecimalPrefix(b, d, "]" + s, "]" + t);
    CancelLeft("]", s, t);
  }

  lemma ItemPrefix(x: KindItem, y: KindItem, s: string, t: string)
    requires ItemString(x) + s == ItemString(y) + t
    requires EndsItem(s) && EndsItem(t)
    ensures x == y && s == t
  {
    assert x.Single? <==> IsDecimalDigit((ItemString(x) + s)[0]);
    assert y.Single? <==> IsDecimalDigit((ItemString(y) + t)[0]);
    if x.Single? {
      DecimalPrefix(x.kind, y.kind, s, t);
    } else {
      RangePrefix(x.first, x.last, y.first, y.last, s, t);
    }
  }

  /** The rest of a printed list after its first item. */
  function ListTail(xs: seq<KindItem>): string
    requires xs != []
  {
    if |xs| == 1 then "]" else "," + (Join(ItemStrings(xs[1..]), ",") + "]")
  }

  lemma ListSplit(xs: seq<KindItem>)
    requires xs != []
    ensures Join(ItemStrings(xs), ",") + "]" == ItemString(xs[0]) + ListTail(xs)
  {
    if |xs| > 1 {
      var item, rest := ItemString(xs[0]), Join(ItemStrings(xs[1..]), ",");
      assert ItemStrings(xs)[1..] == ItemStrings(xs[1..]);
      assert item + "," + rest + "]" == item + ("," + (rest + "]"));
    }
  }

  lemma ListNotEmpty(xs: seq<KindItem>)
    requires xs != []
    ensures |Join(ItemStrings(xs), ",") + "]"| > 1
  {
    ListSplit(xs);
    assert |ItemString(xs[0])| > 0 && |ListTail(xs)| > 0;
  }

  lemma {:induction false} ListInjective(xs: seq<KindItem>, ys: seq<KindItem>)
    requires Join(ItemStrings(xs), ",") + "]" == Join(ItemStrings(ys), ",") + "]"
    ensures xs == ys
  {
    if xs == [] {
      if ys != [] { ListNotEmpty(ys); }
    } else if ys == [] {
      ListNotEmpty(xs);
    } else {
      ListSplit(xs);
      ListSplit(ys);
      ItemPrefix(xs[0], ys[0], ListTail(xs), ListTail(ys));
      assert ListTail(xs)[0] == ListTail(ys)[0];
      if |xs| > 1 {
        CancelLeft(",", Join(ItemStrings(xs[1..]), ",") + "]", Join(ItemStrings(ys[1..]), ",") + "]");
        ListInjective(xs[1..], ys[1..]);
        assert xs == [xs[0]] + xs[1..] && ys == [ys[0]] + ys[1..];
      } else {
        assert xs == [xs[0]] && ys == [ys[0]];
      }
    }
  }

  function KindsSuffix(kinds: Option<seq<KindItem>>): string {
    match kinds
    case None => ""
    case Some(items) => ":" + KindsString(items)
  }

  lemma KindsSuffixInjective(kinds: Option<seq<KindItem>>, kinds': Option<seq<KindItem>>)
    requires KindsSuffix(kinds) == KindsSuffix(kinds')
    ensures kinds == kinds'
  {
    if kinds.Some? && kinds'.Some? {
      var a, b := Join(ItemStrings(kinds.value), ",") + "]", Join(ItemStrings(kinds'.value), ",") + "]";
      assert KindsSuffix(kinds) == ":[" + a && KindsSuffix(kinds') == ":[" + b;
      CancelLeft(":[", a, b);
      ListInjective(kinds.value, kinds'.value);
    }
  }

  lemma KeyShape(pubkey: string, period: nat, kinds: Option<seq<KindItem>>)
    ensures EventKey(pubkey, period, kinds) == pubkey + (":events:" + (Decimal(period) + KindsSuffix(kinds)))
  {
    var p, d := pubkey + ":events:", Decimal(period);
    assert p + d == pubkey + (":events:" + d);
    if kinds.Some? {
      var k := KindsString(kinds.value);
      assert p + d + ":" + k == pubkey + (":events:" + (d + (":" + k)));
    }
  }

  /** Two limits share a bucket only if they are the same limit of the same author. */
  lemma KeyInjective(pubkey: string, period: nat, kinds: Option<seq<KindItem>>,
                     pubkey': string, period': nat, kinds': Option<seq<KindItem>>)
    requires |pubkey| == |pubkey'|
    requires EventKey(pubkey, period, kinds) == EventKey(pubkey', period', kinds')
    ensures pubkey == pubkey' && period == period' && kinds == kinds'
  {
    KeyShape(pubkey, period, kinds);
    KeyShape(pubkey', period', kinds');
    var s, s' := Decimal(period) + KindsSuffix(kinds), Decimal(period') + KindsSuffix(kinds');
    assert pubkey == (pubkey + (":events:" + s))[..|pubkey|];
    assert pubkey' == (pubkey' + (":events:" + s'))[..|pubkey'|];
    CancelLeft(pubkey, ":events:" + s, ":events:" + s');
    CancelLeft(":events:", s, s');
    DecimalPrefix(period, period', KindsSuffix(kinds), KindsSuffix(kinds'));
    KindsSuffixInjective(kinds, kinds');
  }
}
