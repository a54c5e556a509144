/**
 * Route maps and BGP routers (model/router.py).
 *
 * A route map holds items under sequence numbers; an item holds matches and
 * actions. Applying a map sorts its sequence numbers in descending order and
 * applies every item to the same announcement object, and an item threads the
 * announcement through its matches, each of which filters one field in place.
 * The net effect on the announcement is described by `Narrow`: every
 * IP-prefix (next-hop) pattern met on the way is ANDed into the IP-prefix
 * (next-hop) field.
 */
module Router {
  import opened Encoding
  import opened Announcement

  datatype RouteMapType = Permit | Deny

  datatype Direction = In | Out

  /** Routers are identified by strings such as "10.0.0.1". */
  type RouterId = string

  // ---------------------------------------------------------------------
  // What a sequence of matches does to a field

  /** The effect of one match: the field it filters and its pattern bits. */
  datatype FieldFilter = FieldFilter(field: Field, pattern: seq<bool>)

  /** Every pattern on `field` has `n` bits, as BitArray's `&=` needs. */
  predicate Fits(fs: seq<FieldFilter>, field: Field, n: nat)
  {
    forall i :: 0 <= i < |fs| && fs[i].field == field ==> |fs[i].pattern| == n
  }

  /** The bits of `field` after applying the filters in order. */
  function Narrow(bits: seq<bool>, field: Field, fs: seq<FieldFilter>): (r: seq<bool>)
    requires Fits(fs, field, |bits|)
    ensures |r| == |bits|
    decreases |fs|
  {
    if fs == [] then bits
    else Narrow(if fs[0].field == field then And(bits, fs[0].pattern) else bits, field, fs[1..])
  }

  /** Bit `k` is set in every pattern on `field`. */
  predicate Admits(fs: seq<FieldFilter>, field: Field, k: nat)
  {
    forall f :: f in fs && f.field == field ==> k < |f.pattern| && f.pattern[k]
  }

  /** Reference reading of `Narrow`: a bit survives iff it was set and every pattern on the field has it. */
  lemma {:induction false} NarrowAt(bits: seq<bool>, field: Field, fs: seq<FieldFilter>, k: nat)
    requires Fits(fs, field, |bits|) && k < |bits|
    ensures Narrow(bits, field, fs)[k] <==> bits[k] && Admits(fs, field, k)
    decreases |fs|
  {
    if fs != [] {
      var next := if fs[0].field == field then And(bits, fs[0].pattern) else bits;
      NarrowAt(next, field, fs[1..], k);
      assert fs == [fs[0]] + fs[1..];
      assert forall f :: f in fs <==> f == fs[0] || f in fs[1..];
    }
  }

  /** Applying filters one list after another is applying the concatenation. */
  lemma {:induction false} NarrowAppend(bits: seq<bool>, field: Field, fs: seq<FieldFilter>, gs: seq<FieldFilter>)
    requires Fits(fs, field, |bits|) && Fits(gs, field, |bits|)
    ensures Fits(fs + gs, field, |bits|)
    ensures Narrow(bits, field, fs + gs) == Narrow(Narrow(bits, field, fs), field, gs)
    decreases |fs|
  {
    if fs == [] {
      assert fs + gs == gs;
    } else {
      var next := if fs[0].field == field then And(bits, fs[0].pattern) else bits;
      assert (fs + gs)[0] == fs[0];
      assert (fs + gs)[1..] == fs[1..] + gs;
      NarrowAppend(next, field, fs[1..], gs);
    }
  }

  /** Filtering twice with the same patterns is filtering once. */
  lemma NarrowIdempotent(bits: seq<bool>, field: Field, fs: seq<FieldFilter>)
    requires Fits(fs, field, |bits|)
    ensures Narrow(Narrow(bits, field, fs), field, fs) == Narrow(bits, field, fs)
  {
    var once := Narrow(bits, field, fs);
    forall k | 0 <= k < |bits|
      ensures Narrow(once, field, fs)[k] == once[k]
    {
      NarrowAt(once, field, fs, k);
      NarrowAt(bits, field, fs, k);
    }
  }

  /** The order of the patterns does not matter: any permutation narrows alike. */
  lemma NarrowPermutation(bits: seq<bool>, field: Field, fs: seq<FieldFilter>, gs: seq<FieldFilter>)
    requires Fits(fs, field, |bits|) && multiset(fs) == multiset(gs)
    ensures Fits(gs, field, |bits|)
    ensures Narrow(bits, field, fs) == Narrow(bits, field, gs)
  {
    assert forall f :: f in fs <==> f in multiset(fs);
    assert forall g :: g in gs <==> g in multiset(gs);
    forall i | 0 <= i < |gs| && gs[i].field == field
      ensures |gs[i].pattern| == |bits|
    {
      assert gs[i] in multiset(fs);
    }
    forall k | 0 <= k < |bits|
      ensures Narrow(bits, field, fs)[k] == Narrow(bits, field, gs)[k]
    {
      NarrowAt(bits, field, fs, k);
      NarrowAt(bits, field, gs, k);
    }
  }

  /** All-wildcard patterns leave the field unchanged. */
  lemma NarrowByWildcards(bits: seq<bool>, field: Field, fs: seq<FieldFilter>)
    requires forall i :: 0 <= i < |fs| && fs[i].field == field ==> fs[i].pattern == Ones(|bits|)
    ensures Fits(fs, field, |bits|)
    ensures Narrow(bits, field, fs) == bits
  {
    forall k | 0 <= k < |bits|
      ensures Narrow(bits, field, fs)[k] == bits[k]
    {
      NarrowAt(bits, field, fs, k);
      assert forall f :: f in fs && f.field == field ==> f.pattern == Ones(|bits|);
    }
  }

  /** Filtering only clears bits: the result is at most as wide as the input. */
  lemma NarrowBelow(bits: seq<bool>, field: Field, fs: seq<FieldFilter>)
    requires Fits(fs, field, |bits|)
    ensures Below(Narrow(bits, field, fs), bits)
  {
    forall k | 0 <= k < |bits|
      ensures Narrow(bits, field, fs)[k] ==> bits[k]
    {
      NarrowAt(bits, field, fs, k);
    }
  }

  /** A pattern fixing position `p` to 0 and another fixing it to 1 make it impossible. */
  lemma NarrowConflict(bits: seq<bool>, field: Field, fs: seq<FieldFilter>, i: nat, j: nat, p: nat)
    requires Fits(fs, field, |bits|) && p < |bits| / 2
    requires i < |fs| && j < |fs| && fs[i].field == field && fs[j].field == field
    requires Positions(fs[i].pattern)[p] == Zero && Positions(fs[j].pattern)[p] == One
    ensures Positions(Narrow(bits, field, fs))[p] == Impossible
  {
    var n := Narrow(bits, field, fs);
    assert !fs[i].pattern[2 * p] && !fs[j].pattern[2 * p + 1];
    assert !Admits(fs, field, 2 * p) by { assert fs[i] in fs; }
    assert !Admits(fs, field, 2 * p + 1) by { assert fs[j] in fs; }
    NarrowAt(bits, field, fs, 2 * p);
    NarrowAt(bits, field, fs, 2 * p + 1);
    assert Positions(n)[p] == Decode(n[2 * p], n[2 * p + 1]);
  }

  // ---------------------------------------------------------------------
  // Descending order of sequence numbers, as list.sort(reverse=True) leaves it

  predicate Descending(s: seq<int>)
  {
    forall i, j :: 0 <= i < j < |s| ==> s[i] >= s[j]
  }

  /** Inserts `x` into a list, before the first element it is not smaller than. */
  function Insert(x: int, s: seq<int>): seq<int>
  {
    if s == [] || x >= s[0] then [x] + s else [s[0]] + Insert(x, s[1..])
  }

  /** Insertion adds exactly `x`. */
  lemma {:induction false} InsertAdds(x: int, s: seq<int>)
    ensures multiset(Insert(x, s)) == multiset(s) + multiset{x}
  {
    if s != [] && x < s[0] {
      InsertAdds(x, s[1..]);
      assert s == [s[0]] + s[1..];
    }
  }

  /** Inserting a value no larger than `b` among values no larger than `b` keeps every value no larger than `b`. */
  lemma {:induction false} InsertBounded(x: int, s: seq<int>, b: int)
    requires x <= b && forall k :: 0 <= k < |s| ==> s[k] <= b
    ensures forall k :: 0 <= k < |Insert(x, s)| ==> Insert(x, s)[k] <= b
  {
    if s != [] && x < s[0] {
      InsertBounded(x, s[1..], b);
      var r := Insert(x, s);
      assert r == [s[0]] + Insert(x, s[1..]);
      forall k | 0 <= k < |r|
        ensures r[k] <= b
      {
        if k > 0 {
          assert r[k] == Insert(x, s[1..])[k - 1];
        }
      }
    }
  }

  /** Insertion keeps a list descending. */
  lemma {:induction false} InsertDescending(x: int, s: seq<int>)
    requires Descending(s)
    ensures Descending(Insert(x, s))
  {
    if s != [] && x < s[0] {
      var tail := s[1..];
      var rest := Insert(x, tail);
      InsertDescending(x, tail);
      forall k | 0 <= k < |tail|
        ensures tail[k] <= s[0]
      {
        assert tail[k] == s[k + 1];
      }
      InsertBounded(x, tail, s[0]);
      var r := [s[0]] + rest;
      assert Insert(x, s) == r;
      forall i, j | 0 <= i < j < |r|
        ensures r[i] >= r[j]
      {
        if i > 0 {
          assert r[i] == rest[i - 1] && r[j] == rest[j - 1];
        } else {
          assert r[j] == rest[j - 1];
        }
      }
    }
  }

  function SortDescending(s: seq<int>): (r: seq<int>)
    ensures Descending(r) && multiset(r) == multiset(s)
  {
    if s == [] then []
    else
      assert s == [s[0]] + s[1..];
      InsertDescending(s[0], SortDescending(s[1..]));
      InsertAdds(s[0], SortDescending(s[1..]));
      Insert(s[0], SortDescending(s[1..]))
  }

  /** A descending list is fixed by its elements: two descending permutations are equal. */
  lemma {:induction false} DescendingUnique(a: seq<int>, b: seq<int>)
    requires Descending(a) && Descending(b) && multiset(a) == multiset(b)
    ensures a == b
    decreases |a|
  {
    if a != [] {
      assert |b| == |multiset(b)| == |a|;
      assert a[0] in multiset(b) && b[0] in multiset(a);
      DescendingHead(a, b[0]);
      DescendingHead(b, a[0]);
      assert a == [a[0]] + a[1..] && b == [b[0]] + b[1..];
      assert multiset(a) == multiset{a[0]} + multiset(a[1..]);
      assert multiset(b) == multiset{b[0]} + multiset(b[1..]);
      assert a[0] == b[0];
      assert multiset(a[1..]) == multiset(a) - multiset{a[0]};
      assert multiset(b[1..]) == multiset(b) - multiset{b[0]};
      DescendingTail(a);
      DescendingTail(b);
      DescendingUnique(a[1..], b[1..]);
    } else {
      assert |b| == |multiset(b)| == 0;
    }
  }

  lemma DescendingTail(s: seq<int>)
    requires Descending(s) && s != []
    ensures Descending(s[1..])
  {
    forall i, j | 0 <= i < j < |s| - 1
      ensures s[1..][i] >= s[1..][j]
    {
      assert s[1..][i] == s[i + 1] && s[1..][j] == s[j + 1];
    }
  }

  /** The head of a descending list is its largest element. */
  lemma DescendingHead(s: seq<int>, y: int)
    requires Descending(s) && y in s
    ensures y <= s[0]
  {
    var m :| 0 <= m < |s| && s[m] == y;
    if m > 0 {
      assert s[0] >= s[m];
    }
  }

  /** Sorting a list that is already descending changes nothing. */
  lemma SortDescendingOfDescending(s: seq<int>)
    requires Descending(s)
    ensures SortDescending(s) == s
  {
    DescendingUnique(SortDescending(s), s);
  }

  // ---------------------------------------------------------------------

  /** A match filters regardless of whether it is a permit or a deny match. */
  datatype RouteMapMatch = RouteMapMatch(kind: RouteMapType, field: Field, pattern: SymbolicField)
  {
    function AsFilter(): FieldFilter
      reads pattern.bitarray
    {
      FieldFilter(field, pattern.bitarray[..])
    }

    method Apply(announcement: RouteAnnouncement) returns (r: RouteAnnouncement)
      requires announcement.Valid()
      requires field == IpPrefix || field == NextHop ==> pattern.bitarray.Length == 64
      modifies announcement.ipPrefix.bitarray, announcement.nextHop.bitarray
      ensures r == announcement
      ensures announcement.ipPrefix.bitarray[..]
        == Narrow(old(announcement.ipPrefix.bitarray[..]), IpPrefix, [old(AsFilter())])
      ensures announcement.nextHop.bitarray[..]
        == Narrow(old(announcement.nextHop.bitarray[..]), NextHop, [old(AsFilter())])
    {
      announcement.Filter(field, pattern);
      r := announcement;
    }
  }

  /** An action is recorded but has no effect. */
  datatype RouteMapAction = RouteMapAction(field: Field, pattern: Value)
  {
    method Apply(announcement: RouteAnnouncement) returns (r: RouteAnnouncement)
      ensures r == announcement
    {
      r := announcement;
    }
  }

  /** The filters of a list of matches, in order. */
  ghost function FiltersOf(ms: seq<RouteMapMatch>): (fs: seq<FieldFilter>)
    reads set m | m in ms :: m.pattern.bitarray
    ensures |fs| == |ms|
    ensures forall i :: 0 <= i < |ms| ==> fs[i] == ms[i].AsFilter()
  {
    if ms == [] then [] else [ms[0].AsFilter()] + FiltersOf(ms[1..])
  }

  class RouteMapItems {
    var matches: seq<RouteMapMatch>
    var actions: seq<RouteMapAction>

    constructor ()
      ensures matches == [] && actions == []
    {
      matches := [];
      actions := [];
    }

    method AddMatch(kind: RouteMapType, field: Field, pattern: SymbolicField)
      modifies this
      ensures matches == old(matches) + [RouteMapMatch(kind, field, pattern)]
      ensures actions == old(actions)
    {
      var match_ := RouteMapMatch(kind, field, pattern);
      matches := matches + [match_];
    }

    method AddAction(field: Field, pattern: Value)
      modifies this
      ensures actions == old(actions) + [RouteMapAction(field, pattern)]
      ensures matches == old(matches)
    {
      var action := RouteMapAction(field, pattern);
      actions := actions + [action];
    }

    ghost function PatternArrays(): set<array<bool>>
      reads this
    {
      set m | m in matches :: m.pattern.bitarray
    }

    /** Every IP-prefix or next-hop pattern is as wide as an announcement's field. */
    ghost predicate Applicable()
      reads this
    {
      forall i :: 0 <= i < |matches| && (matches[i].field == IpPrefix || matches[i].field == NextHop)
        ==> matches[i].pattern.bitarray.Length == 64
    }

    ghost function Filters(): seq<FieldFilter>
      reads this, PatternArrays()
    {
      FiltersOf(matches)
    }

    lemma FiltersFit()
      requires Applicable()
      ensures Fits(Filters(), IpPrefix, 64) && Fits(Filters(), NextHop, 64)
    {
    }

    /** Threads the announcement through the matches in insertion order; actions are not applied. */
    method Apply(announcement: RouteAnnouncement) returns (r: RouteAnnouncement)
      requires announcement.Valid() && Applicable()
      requires announcement.ipPrefix.bitarray !in PatternArrays()
      requires announcement.nextHop.bitarray !in PatternArrays()
      modifies announcement.ipPrefix.bitarray, announcement.nextHop.bitarray
      ensures r == announcement
      ensures Fits(old(Filters()), IpPrefix, 64) && Fits(old(Filters()), NextHop, 64)
      ensures announcement.ipPrefix.bitarray[..]
        == Narrow(old(announcement.ipPrefix.bitarray[..]), IpPrefix, old(Filters()))
      ensures announcement.nextHop.bitarray[..]
        == Narrow(old(announcement.nextHop.bitarray[..]), NextHop, old(Filters()))
    {
      FiltersFit();
      ghost var fs := Filters();
      var tmp := announcement;
      for i := 0 to |matches|
        invariant tmp == announcement && Filters() == fs
        invariant announcement.ipPrefix.bitarray[..]
          == Narrow(old(announcement.ipPrefix.bitarray[..]), IpPrefix, fs[..i])
        invariant announcement.nextHop.bitarray[..]
          == Narrow(old(announcement.nextHop.bitarray[..]), NextHop, fs[..i])
      {
        tmp := ApplyMatch(i, tmp, old(announcement.ipPrefix.bitarray[..]), old(announcement.nextHop.bitarray[..]), fs);
      }
      assert fs[..|matches|] == fs;
      r := tmp;
    }

    /** One turn of that loop: the match at `i` narrows the announcement further. */
    method ApplyMatch(i: nat, announcement: RouteAnnouncement, ghost ip: seq<bool>, ghost nh: seq<bool>, ghost fs: seq<FieldFilter>)
      returns (r: RouteAnnouncement)
      requires announcement.Valid() && i < |matches| && |ip| == 64 && |nh| == 64
      requires fs == Filters() && Fits(fs, IpPrefix, 64) && Fits(fs, NextHop, 64)
      requires announcement.ipPrefix.bitarray !in PatternArrays()
      requires announcement.nextHop.bitarray !in PatternArrays()
      requires announcement.ipPrefix.bitarray[..] == Narrow(ip, IpPrefix, fs[..i])
      requires announcement.nextHop.bitarray[..] == Narrow(nh, NextHop, fs[..i])
      modifies announcement.ipPrefix.bitarray, announcement.nextHop.bitarray
      ensures r == announcement && Filters() == fs
      ensures announcement.ipPrefix.bitarray[..] == Narrow(ip, IpPrefix, fs[..i + 1])
      ensures announcement.nextHop.bitarray[..] == Narrow(nh, NextHop, fs[..i + 1])
    {
      assert matches[i].pattern.bitarray in PatternArrays();
      assert fs[i] == matches[i].AsFilter();
      label Before:
      r := matches[i].Apply(announcement);
      assert unchanged@Before(this) && unchanged@Before(PatternArrays());
      assert fs[..i + 1] == fs[..i] + [fs[i]];
      NarrowAppend(ip, IpPrefix, fs[..i], [fs[i]]);
      NarrowAppend(nh, NextHop, fs[..i], [fs[i]]);
    }
  }

  /** What applying a route map does: its filters in application order and the number of entries returned. */
  datatype MapView = MapView(filters: seq<FieldFilter>, count: nat)

  class RouteMap {
    const name: string
    const kind: RouteMapType
    var sequence: seq<int>
    var items: map<int, RouteMapItems>

    /** Every registered sequence number has an item. */
    ghost predicate Valid()
      reads this
    {
      forall s :: s in sequence ==> s in items
    }

    ghost predicate Applicable()
      reads this`items, items.Values
    {
      forall s :: s in items ==> items[s].Applicable()
    }

    ghost function PatternArrays(): set<array<bool>>
      reads this`items, items.Values
    {
      set s, arr | s in items && arr in items[s].PatternArrays() :: arr
    }

    constructor (name: string, kind: RouteMapType)
      ensures this.name == name && this.kind == kind
      ensures sequence == [] && items == map[]
    {
      this.name := name;
      this.kind := kind;
      sequence := [];
      items := map[];
    }

    /** Registers `item` under `seqNumber`; a repeated number is listed again and rebinds the item. */
    method AddItem(item: RouteMapItems, seqNumber: int)
      modifies this
      ensures sequence == old(sequence) + [seqNumber]
      ensures items == old(items)[seqNumber := item]
    {
      sequence := sequence + [seqNumber];
      items := items[seqNumber := item];
    }

    /** Every number in `order` has an item. */
    ghost predicate Registered(order: seq<int>)
      reads this`items
    {
      forall i :: 0 <= i < |order| ==> order[i] in items
    }

    /** The filters of the items listed in `order`, item after item. */
    ghost function FiltersFor(order: seq<int>): seq<FieldFilter>
      requires Registered(order)
      reads this`items, items.Values, PatternArrays()
    {
      if order == [] then []
      else
        ItemPatterns(order[0]);
        items[order[0]].Filters() + FiltersFor(order[1..])
    }

    lemma ItemPatterns(s: int)
      requires s in items
      ensures items[s].PatternArrays() <= PatternArrays()
    {
      forall arr | arr in items[s].PatternArrays()
        ensures arr in PatternArrays()
      {
        assert s in items && arr in items[s].PatternArrays();
      }
    }

    lemma SortedRegistered()
      requires Valid()
      ensures Registered(SortDescending(sequence))
    {
      var sorted := SortDescending(sequence);
      forall i | 0 <= i < |sorted|
        ensures sorted[i] in items
      {
        assert sorted[i] in multiset(sorted);
        assert sorted[i] in sequence;
      }
    }

    /** The effect of applying this map: its items in descending sequence order. */
    ghost function View(): MapView
      requires Valid()
      reads this, items.Values, PatternArrays()
    {
      SortedRegistered();
      MapView(FiltersFor(SortDescending(sequence)), |sequence|)
    }

    /** The patterns of an applicable map are as wide as an address field. */
    lemma ViewPatternsFit()
      requires Valid() && Applicable()
      ensures Fits(View().filters, IpPrefix, 64) && Fits(View().filters, NextHop, 64)
    {
      SortedRegistered();
      FiltersForFit(SortDescending(sequence));
    }

    lemma {:induction false} FiltersForAppend(order: seq<int>, s: int)
      requires Registered(order)
      requires s in items
      ensures FiltersFor(order + [s]) == FiltersFor(order) + items[s].Filters()
      decreases |order|
    {
      if order != [] {
        assert (order + [s])[1..] == order[1..] + [s];
        FiltersForAppend(order[1..], s);
      } else {
        assert ([] + [s])[1..] == [];
      }
    }

    lemma {:induction false} FiltersForFit(order: seq<int>)
      requires Applicable() && Registered(order)
      ensures Fits(FiltersFor(order), IpPrefix, 64) && Fits(FiltersFor(order), NextHop, 64)
      decreases |order|
    {
      if order != [] {
        assert order[0] in items;
        var item := items[order[0]];
        assert forall s :: s in items ==> items[s].Applicable();
        item.FiltersFit();
        FiltersForFit(order[1..]);
      }
    }

    /** One more item extends the filters applied so far by that item's filters. */
    lemma ApplyStep(order: seq<int>, i: nat, ip: seq<bool>, nh: seq<bool>)
      requires Applicable() && Registered(order) && i < |order| && |ip| == 64 && |nh| == 64
      ensures Registered(order[..i]) && Registered(order[..i + 1])
      ensures Fits(FiltersFor(order[..i + 1]), IpPrefix, 64) && Fits(FiltersFor(order[..i + 1]), NextHop, 64)
      ensures Fits(FiltersFor(order[..i]), IpPrefix, 64) && Fits(FiltersFor(order[..i]), NextHop, 64)
      ensures Fits(items[order[i]].Filters(), IpPrefix, 64) && Fits(items[order[i]].Filters(), NextHop, 64)
      ensures Narrow(ip, IpPrefix, FiltersFor(order[..i + 1]))
        == Narrow(Narrow(ip, IpPrefix, FiltersFor(order[..i])), IpPrefix, items[order[i]].Filters())
      ensures Narrow(nh, NextHop, FiltersFor(order[..i + 1]))
        == Narrow(Narrow(nh, NextHop, FiltersFor(order[..i])), NextHop, items[order[i]].Filters())
    {
      assert order[i] in items;
      assert order[..i + 1] == order[..i] + [order[i]];
      FiltersForAppend(order[..i], order[i]);
      FiltersForFit(order[..i]);
      FiltersForFit(order[..i + 1]);
      assert forall s :: s in items ==> items[s].Applicable();
      items[order[i]].FiltersFit();
      NarrowAppend(ip, IpPrefix, FiltersFor(order[..i]), items[order[i]].Filters());
      NarrowAppend(nh, NextHop, FiltersFor(order[..i]), items[order[i]].Filters());
    }

    /**
     * Sorts the sequence numbers in place, descending, and applies every item
     * in that order to the same announcement, returning it once per entry.
     */
    method Apply(announcement: RouteAnnouncement) returns (processed: seq<RouteAnnouncement>)
      requires Valid() && Applicable() && announcement.Valid()
      requires announcement.ipPrefix.bitarray !in PatternArrays()
      requires announcement.nextHop.bitarray !in PatternArrays()
      modifies this`sequence, announcement.ipPrefix.bitarray, announcement.nextHop.bitarray
      ensures Valid() && sequence == SortDescending(old(sequence)) && View() == old(View())
      ensures processed == seq(|sequence|, _ => announcement)
      ensures Fits(old(View()).filters, IpPrefix, 64) && Fits(old(View()).filters, NextHop, 64)
      ensures announcement.ipPrefix.bitarray[..]
        == Narrow(old(announcement.ipPrefix.bitarray[..]), IpPrefix, old(View()).filters)
      ensures announcement.nextHop.bitarray[..]
        == Narrow(old(announcement.nextHop.bitarray[..]), NextHop, old(View()).filters)
    {
      ghost var ip, nh := announcement.ipPrefix.bitarray[..], announcement.nextHop.bitarray[..];
      SortSequence();
      ghost var v := View();
      ghost var fs := FiltersFor(sequence);
      assert v == old(View()) && v.filters == fs;
      label Sorted:
      processed := ApplyInOrder(sequence, announcement);
      assert unchanged@Sorted(this) && unchanged@Sorted(items.Values) && unchanged@Sorted(PatternArrays());
      assert FiltersFor(sequence) == fs && View() == v;
      assert announcement.ipPrefix.bitarray[..] == Narrow(ip, IpPrefix, fs);
      assert announcement.nextHop.bitarray[..] == Narrow(nh, NextHop, fs);
    }

    /** `self.sequence.sort(reverse=True)`: the effect of the map does not change. */
    method SortSequence()
      requires Valid() && Applicable()
      modifies this`sequence
      ensures Valid() && sequence == SortDescending(old(sequence)) && |sequence| == |old(sequence)|
      ensures Registered(sequence) && View() == old(View()) && FiltersFor(sequence) == View().filters
    {
      SortedRegistered();
      ghost var before, sorted := sequence, SortDescending(sequence);
      ghost var fs := FiltersFor(sorted);
      label Before:
      sequence := SortDescending(sequence);
      assert unchanged@Before(items.Values) && unchanged@Before(PatternArrays());
      assert FiltersFor(sorted) == fs;
      SortDescendingOfDescending(sequence);
      assert |sequence| == |multiset(sequence)| == |multiset(before)| == |before|;
    }

    /** The loop of `Apply`: every item listed in `order`, in that order. */
    method ApplyInOrder(order: seq<int>, announcement: RouteAnnouncement) returns (processed: seq<RouteAnnouncement>)
      requires Applicable() && Registered(order) && announcement.Valid()
      requires announcement.ipPrefix.bitarray !in PatternArrays()
      requires announcement.nextHop.bitarray !in PatternArrays()
      modifies announcement.ipPrefix.bitarray, announcement.nextHop.bitarray
      ensures processed == seq(|order|, _ => announcement)
      ensures Fits(FiltersFor(order), IpPrefix, 64) && Fits(FiltersFor(order), NextHop, 64)
      ensures announcement.ipPrefix.bitarray[..]
        == Narrow(old(announcement.ipPrefix.bitarray[..]), IpPrefix, FiltersFor(order))
      ensures announcement.nextHop.bitarray[..]
        == Narrow(old(announcement.nextHop.bitarray[..]), NextHop, FiltersFor(order))
    {
      processed := [];
      FiltersForFit(order);
      for i := 0 to |order|
        invariant Registered(order[..i])
        invariant Fits(FiltersFor(order[..i]), IpPrefix, 64) && Fits(FiltersFor(order[..i]), NextHop, 64)
        invariant processed == seq(i, _ => announcement)
        invariant announcement.ipPrefix.bitarray[..]
          == Narrow(old(announcement.ipPrefix.bitarray[..]), IpPrefix, FiltersFor(order[..i]))
        invariant announcement.nextHop.bitarray[..]
          == Narrow(old(announcement.nextHop.bitarray[..]), NextHop, FiltersFor(order[..i]))
      {
        var r := ApplyItem(order, i, announcement, old(announcement.ipPrefix.bitarray[..]), old(announcement.nextHop.bitarray[..]));
        processed := processed + [r];
      }
      assert order[..|order|] == order;
    }

    /** One turn of that loop: the item listed at `order[i]` narrows the announcement further. */
    method ApplyItem(order: seq<int>, i: nat, announcement: RouteAnnouncement, ghost ip: seq<bool>, ghost nh: seq<bool>)
      returns (r: RouteAnnouncement)
      requires Applicable() && Registered(order) && i < |order| && Registered(order[..i])
      requires Fits(FiltersFor(order[..i]), IpPrefix, 64) && Fits(FiltersFor(order[..i]), NextHop, 64)
      requires announcement.Valid() && |ip| == 64 && |nh| == 64
      requires announcement.ipPrefix.bitarray !in PatternArrays()
      requires announcement.nextHop.bitarray !in PatternArrays()
      requires announcement.ipPrefix.bitarray[..] == Narrow(ip, IpPrefix, FiltersFor(order[..i]))
      requires announcement.nextHop.bitarray[..] == Narrow(nh, NextHop, FiltersFor(order[..i]))
      modifies announcement.ipPrefix.bitarray, announcement.nextHop.bitarray
      ensures r == announcement && Registered(order[..i + 1])
      ensures Fits(FiltersFor(order[..i + 1]), IpPrefix, 64) && Fits(FiltersFor(order[..i + 1]), NextHop, 64)
      ensures announcement.ipPrefix.bitarray[..] == Narrow(ip, IpPrefix, FiltersFor(order[..i + 1]))
      ensures announcement.nextHop.bitarray[..] == Narrow(nh, NextHop, FiltersFor(order[..i + 1]))
    {
      var routeMapItem := items[order[i]];
      ItemPatterns(order[i]);
      ApplyStep(order, i, ip, nh);
      ghost var next := FiltersFor(order[..i + 1]);
      r := routeMapItem.Apply(announcement);
      assert FiltersFor(order[..i + 1]) == next;
    }
  }

  // ---------------------------------------------------------------------

  class InternalRouter {
    const id: RouterId
    const name: string
    const asNumber: int
    var routeMaps: map<(Direction, RouterId), RouteMap>

    constructor (id: RouterId, name: string, asNumber: int)
      ensures this.id == id && this.name == name && this.asNumber == asNumber
      ensures routeMaps == map[]
    {
      this.id := id;
      this.name := name;
      this.asNumber := asNumber;
      routeMaps := map[];
    }

    /** Stores the map under (direction, neighbour), replacing any earlier one. */
    method AddRouteMap(routeMap: RouteMap, direction: Direction, neighbor: RouterId)
      modifies this
      ensures routeMaps == old(routeMaps)[(direction, neighbor) := routeMap]
    {
      var tag := (direction, neighbor);
      routeMaps := routeMaps[tag := routeMap];
    }
  }

  /** An external peer: never changed after creation. */
  datatype ExternalRouter = ExternalRouter(id: RouterId, name: string, asNumber: int)
}
