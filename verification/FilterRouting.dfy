/** Which targets a log message goes to: filters are listed by tag and origin, a bloom
    mask per list tells whether any of them can match, and what a message has been found
    to match is cached in it. */
module FilterRouting {
  import opened Common

  type Level = bv32

  datatype Filter = Filter(id: int, levelMask: Level, targetId: int, disabled: bool)

  const NO_FILTER := Filter(0, 0, 0, false)

  // ---------- Lists of filters ----------

  /** `mask & level`. */
  predicate Meets(mask: Level, level: Level)
  {
    mask & level != 0
  }

  function Or(a: Level, b: Level): Level
  {
    a | b
  }

  lemma OrMeets(a: Level, b: Level, level: Level)
    ensures Meets(Or(a, b), level) <==> Meets(a, level) || Meets(b, level)
    ensures !Meets(0, level)
  {
    AndDistributes(a, b, level);
    OrIsZero(a & level, b & level);
  }

  lemma AndDistributes(a: Level, b: Level, c: Level)
    ensures (a | b) & c == (a & c) | (b & c)
    ensures 0 & c == 0
  {
  }

  lemma OrIsZero(a: Level, b: Level)
    ensures a | b == 0 <==> a == 0 && b == 0
  {
  }

  /** The OR of the masks. */
  function Masks(s: seq<Filter>): Level
  {
    if s == [] then 0 else Or(Masks(s[..|s| - 1]), s[|s| - 1].levelMask)
  }

  lemma MasksPush(s: seq<Filter>, f: Filter)
    ensures Masks(s + [f]) == Or(Masks(s), f.levelMask)
  {
    assert (s + [f])[..|s|] == s;
  }

  ghost predicate AnyMeets(s: seq<Filter>, level: Level)
  {
    exists i :: 0 <= i < |s| && Meets(s[i].levelMask, level)
  }

  /** The bloom mask turns down a level exactly when every filter does. */
  lemma {:induction false} BloomIsExact(s: seq<Filter>, level: Level)
    ensures Meets(Masks(s), level) <==> AnyMeets(s, level)
  {
    hide Meets;
    hide Or;
    if s == [] {
      OrMeets(0, 0, level);
    } else {
      var n := |s| - 1;
      BloomIsExact(s[..n], level);
      OrMeets(Masks(s[..n]), s[n].levelMask, level);
      assert AnyMeets(s, level) <==> AnyMeets(s[..n], level) || Meets(s[n].levelMask, level) by {
        if AnyMeets(s[..n], level) {
          var i :| 0 <= i < n && Meets(s[..n][i].levelMask, level);
          assert Meets(s[i].levelMask, level);
        }
        if AnyMeets(s, level) {
          var i :| 0 <= i < |s| && Meets(s[i].levelMask, level);
          assert i < n ==> Meets(s[..n][i].levelMask, level);
        }
      }
    }
  }

  /** Filters are numbered as they are added. */
  ghost predicate IdsAscend(s: seq<Filter>, next: int)
  {
    && (forall i {:trigger s[i]} | 0 <= i < |s| :: 0 < s[i].id < next)
    && (forall i, j {:trigger s[i], s[j]} | 0 <= i < j < |s| :: s[i].id < s[j].id)
  }

  lemma NextIdAscends(s: seq<Filter>, f: Filter)
    requires f.id > 0 && IdsAscend(s, f.id)
    ensures IdsAscend(s, f.id + 1) && IdsAscend(s + [f], f.id + 1)
  {
  }

  /** What modifying the filter with a number makes of a list: whether it is disabled, and
      its target, may be set. */
  function Modified(s: seq<Filter>, id: int, disable: Option<bool>, target: Option<int>): (r: seq<Filter>)
    ensures |r| == |s|
    ensures forall i {:trigger r[i]} {:trigger s[i]} | 0 <= i < |s| ::
              r[i] == if s[i].id == id then Changed(s[i], disable, target) else s[i]
  {
    if s == [] then []
    else
      var n := |s| - 1;
      Modified(s[..n], id, disable, target) + [if s[n].id == id then Changed(s[n], disable, target) else s[n]]
  }

  /** The numbers stay; and no two filters have one, so the first that is found is all. */
  lemma ModifiedAscends(s: seq<Filter>, id: int, disable: Option<bool>, target: Option<int>, next: int, n: nat)
    requires IdsAscend(s, next) && (n < |s| ==> s[n].id == id)
    ensures IdsAscend(Modified(s, id, disable, target), next)
    ensures n < |s| ==> Modified(s, id, disable, target) == s[n := Changed(s[n], disable, target)]
  {
    hide Modified;
  }

  function Changed(f: Filter, disable: Option<bool>, target: Option<int>): Filter
  {
    f.(disabled := if disable.Some? then disable.value else f.disabled,
       targetId := if target.Some? then target.value else f.targetId)
  }

  class FilterList {
    const list: array<Filter>
    var bloom: Level
    ghost var Contents: seq<Filter>

    ghost predicate Valid()
      reads this, list
    {
      && |Contents| <= list.Length && bloom == Masks(Contents)
      && (forall i {:trigger list[i]} {:trigger Contents[i]} | 0 <= i < |Contents| ::
            list[i] == Contents[i] && Contents[i].id != 0)
      && (forall i {:trigger list[i]} | |Contents| <= i < list.Length :: list[i].id == 0 && !list[i].disabled)
    }

    constructor (max: nat)
      ensures Valid() && fresh(list) && list.Length == max && Contents == []
    {
      list := new Filter[max](_ => NO_FILTER);
      bloom, Contents := 0, [];
    }

    /** Into the first empty place. Whether the filter is disabled is not copied. */
    method Add(filter: Filter) returns (added: bool)
      requires Valid() && filter.id != 0
      modifies this, list
      ensures Valid() && added == (|old(Contents)| < list.Length)
      ensures Contents == if added then old(Contents) + [filter.(disabled := false)] else old(Contents)
    {
      hide Or;
      hide Masks;
      for n := 0 to list.Length
        invariant n <= |Contents| && Contents == old(Contents) && Valid()
      {
        if list[n].id == 0 {
          MasksPush(Contents, filter.(disabled := false));
          bloom := Or(bloom, filter.levelMask);
          list[n] := filter.(disabled := list[n].disabled);
          Contents := Contents + [filter.(disabled := false)];
          return true;
        }
      }
      added := false;
    }

    /** `bloom & m`. */
    method IsValid(level: Level) returns (r: bool)
      requires Valid()
      ensures r <==> AnyMeets(Contents, level)
    {
      hide Meets;
      BloomIsExact(Contents, level);
      r := Meets(bloom, level);
    }

    /** find. */
    method Find(id: int) returns (n: nat)
      requires Valid() && id != 0
      ensures n < |Contents| ==> Contents[n].id == id
      ensures n >= |Contents| ==> forall i | 0 <= i < |Contents| :: Contents[i].id != id
    {
      n := 0;
      while n < list.Length && list[n].id != id
        invariant n <= list.Length && forall i | 0 <= i < n && i < |Contents| :: Contents[i].id != id
      {
        n := n + 1;
      }
    }

    /** What is done to the filter that is found. */
    method Modify(id: int, disable: Option<bool>, target: Option<int>, ghost next: int) returns (found: bool)
      requires Valid() && id != 0 && IdsAscend(Contents, next)
      modifies list, this`Contents
      ensures Valid() && Contents == Modified(old(Contents), id, disable, target) && IdsAscend(Contents, next)
      ensures found <==> exists i :: 0 <= i < |old(Contents)| && old(Contents)[i].id == id
    {
      hide Masks;
      hide Modified;
      hide IdsAscend;
      var n := Find(id);
      ghost var was := Contents;
      found := n < list.Length && list[n].id == id;
      SameMasks(was, Modified(was, id, disable, target));
      ModifiedAscends(was, id, disable, target, next, n);
      if found {
        list[n] := Changed(list[n], disable, target);
      }
      Contents := Modified(was, id, disable, target);
    }
  }

  lemma {:induction false} SameMasks(s: seq<Filter>, t: seq<Filter>)
    requires |s| == |t| && forall i | 0 <= i < |s| :: s[i].levelMask == t[i].levelMask
    ensures Masks(s) == Masks(t)
    decreases |s|
  {
    if s != [] {
      SameMasks(s[..|s| - 1], t[..|t| - 1]);
    }
  }

  // ---------- Hashes ----------

  /** Tags and origins are numbers of 32 bits. */
  predicate Is32(x: int)
  {
    0 <= x < 0x1_0000_0000
  }

  function FilterHash(tag: int, origin: int): int
  {
    origin * 0x1_0000_0000 + tag
  }

  /** The hash, its upper half and its lower half: tag and origin, the origin on its own,
      the tag on its own. */
  function HashOf(tag: int, origin: int, k: int): int
  {
    var hash := FilterHash(tag, origin);
    if k == 0 then hash
    else if k == 1 then hash - hash % 0x1_0000_0000
    else if k == 2 then hash % 0x1_0000_0000
    else 0
  }

  /** The shifts and masks on words of 64 bits. */
  lemma HashBits(tag: bv64, origin: bv64)
    requires tag <= 0xFFFF_FFFF && origin <= 0xFFFF_FFFF
    ensures (0xFFFF_FFFF_0000_0000 & (origin << 32)) | tag == origin * 0x1_0000_0000 + tag
    ensures var hash := origin * 0x1_0000_0000 + tag;
            hash & 0xFFFF_FFFF_0000_0000 == hash - hash % 0x1_0000_0000 && hash & 0xFFFF_FFFF == hash % 0x1_0000_0000
  {
  }

  lemma HashParts(tag: int, origin: int)
    requires Is32(tag) && Is32(origin)
    ensures HashOf(tag, origin, 1) == FilterHash(0, origin)
    ensures HashOf(tag, origin, 2) == FilterHash(tag, 0)
    ensures HashOf(tag, origin, 3) == FilterHash(0, 0)
  {
  }

  /** Different tags or origins have different hashes. */
  lemma HashIsInjective(tag: int, origin: int, tag': int, origin': int)
    requires Is32(tag) && Is32(origin) && Is32(tag') && Is32(origin')
             && FilterHash(tag, origin) == FilterHash(tag', origin')
    ensures tag == tag' && origin == origin'
  {
  }

  // ---------- Sifting ----------

  /** A message's meta data, with the cache that sift fills: hashes, and lists known by
      their hash. Lists stay in the table for good. */
  datatype Meta = Meta(tag: int, origin: int, level: Level, hasIgnores: bool, ignoreList: seq<int>,
                       hashes: seq<int>, lists: seq<Option<int>>)

  datatype Options = Options(levelFilterOutMask: Level, defaultFilterOut: bool)

  const MAX_IGNORE_LIST: nat := 10

  predicate MetaOk(f: Meta)
  {
    Is32(f.tag) && Is32(f.origin) && |f.hashes| == 3 && |f.lists| == 4 && |f.ignoreList| == MAX_IGNORE_LIST + 1
  }

  predicate HasCache(f: Meta)
    requires MetaOk(f)
  {
    f.hashes[0] != 0xFFFF_FFFF_FFFF_FFFF
  }

  /** As a message comes in. */
  predicate Uncached(f: Meta)
  {
    MetaOk(f) && !HasCache(f) && f.lists == [None, None, None, None]
  }

  /** Which of the four hashes is the first to have a list; 4 if none has. */
  function FirstList(keys: set<int>, f: Meta): (k: int)
    ensures 0 <= k <= 4 && (k < 4 ==> HashOf(f.tag, f.origin, k) in keys)
    ensures forall j | 0 <= j < k :: HashOf(f.tag, f.origin, j) !in keys
  {
    if HashOf(f.tag, f.origin, 0) in keys then 0
    else if HashOf(f.tag, f.origin, 1) in keys then 1
    else if HashOf(f.tag, f.origin, 2) in keys then 2
    else if HashOf(f.tag, f.origin, 3) in keys then 3
    else 4
  }

  function WithCache(keys: set<int>, f: Meta): Meta
    requires MetaOk(f)
  {
    var k := FirstList(keys, f);
    f.(hashes := [HashOf(f.tag, f.origin, 0), HashOf(f.tag, f.origin, 1), HashOf(f.tag, f.origin, 2)],
       lists := if k < 4 then f.lists[k := Some(HashOf(f.tag, f.origin, k))] else f.lists)
  }

  function Sifted(g: Options, keys: set<int>, f: Meta): (bool, Meta)
    requires MetaOk(f)
  {
    if Meets(g.levelFilterOutMask, f.level) then (false, f)
    else if HasCache(f) then (true, f)
    else (FirstList(keys, f) < 4 || !g.defaultFilterOut, WithCache(keys, f))
  }

  /** Sifting a sifted message again leaves it as it is; the verdict is the same too,
      unless no filter list was found while the default is to filter out: then the
      second verdict is to log. */
  lemma SiftTwice(g: Options, keys: set<int>, f: Meta)
    requires Uncached(f)
    ensures var (r1, f1) := Sifted(g, keys, f);
            && MetaOk(f1) && Sifted(g, keys, f1).1 == f1
            && (Sifted(g, keys, f1).0 == r1 <==>
                  Meets(g.levelFilterOutMask, f.level) || FirstList(keys, f) < 4 || !g.defaultFilterOut
                    || !HasCache(f1))
            && (r1 ==> Sifted(g, keys, f1).0)
  {
    hide Meets;
    hide HashOf;
    var f1 := WithCache(keys, f);
    var k := FirstList(keys, f);
    assert FirstList(keys, f1) == k;
    assert k < 4 ==> f1.lists[k := f1.lists[k]] == f1.lists;
  }

  /** The one tag and origin whose hash looks like no cache at all. */
  lemma NoCacheHash(tag: int, origin: int)
    requires Is32(tag) && Is32(origin)
    ensures FilterHash(tag, origin) == 0xFFFF_FFFF_FFFF_FFFF <==> tag == 0xFFFF_FFFF && origin == 0xFFFF_FFFF
  {
  }

  // ---------- Routing ----------

  /** A write of the message to a target; 0 is the default target, and filter 0 the
      default filter. */
  datatype Write = Write(target: int, filter: int)

  /** In the list before its end, which a 0 marks. */
  predicate Ignored(list: seq<int>, id: int)
    requires |list| == MAX_IGNORE_LIST + 1
  {
    exists x :: 0 <= x < MAX_IGNORE_LIST && list[x] == id && forall y | 0 <= y <= x :: list[y] != 0
  }

  predicate Matches(f: Meta, t: Filter)
  {
    Meets(t.levelMask, f.level) && !t.disabled
  }

  /** A filter that matches takes care of the message, unless its target is ignored or unknown. */
  predicate Takes(f: Meta, targets: set<int>, t: Filter)
    requires MetaOk(f)
  {
    Matches(f, t)
      && (t.targetId == 0 || (!(f.hasIgnores && Ignored(f.ignoreList, t.targetId)) && t.targetId in targets))
  }

  /** The places in the list of the filters that take the message, in order. */
  function Takers(f: Meta, targets: set<int>, s: seq<Filter>): seq<int>
    requires MetaOk(f)
  {
    if s == [] then [] else
    var n := |s| - 1;
    Takers(f, targets, s[..n]) + if Takes(f, targets, s[n]) then [n] else []
  }

  /** Each filter that takes the message is there once, in the order of the list. */
  lemma {:induction false} TakersAre(f: Meta, targets: set<int>, s: seq<Filter>)
    requires MetaOk(f)
    ensures forall n {:trigger n in Takers(f, targets, s)} ::
              n in Takers(f, targets, s) <==> 0 <= n < |s| && Takes(f, targets, s[n])
    ensures forall i, j | 0 <= i < j < |Takers(f, targets, s)| :: Takers(f, targets, s)[i] < Takers(f, targets, s)[j]
    decreases |s|
  {
    hide Takes;
    if s != [] {
      var n := |s| - 1;
      TakersAre(f, targets, s[..n]);
      var r := Takers(f, targets, s[..n]);
      forall i | 0 <= i < |r|
        ensures r[i] < n
      {
        assert r[i] in r;
      }
    }
  }

  function WritesTo(s: seq<Filter>, takers: seq<int>, hasDefault: bool): seq<Write>
  {
    if takers == [] then [] else
    var m := |takers| - 1;
    var n := takers[m];
    WritesTo(s, takers[..m], hasDefault)
    + if 0 <= n < |s| && (s[n].targetId != 0 || hasDefault) then [Write(s[n].targetId, s[n].id)] else []
  }

  lemma OneMoreTaker(f: Meta, targets: set<int>, hasDefault: bool, s: seq<Filter>, n: nat)
    requires MetaOk(f) && n < |s|
    ensures var takers, next := Takers(f, targets, s[..n]), Takers(f, targets, s[..n + 1]);
            && next == takers + (if Takes(f, targets, s[n]) then [n] else [])
            && WritesTo(s, next, hasDefault)
               == WritesTo(s, takers, hasDefault)
                  + if Takes(f, targets, s[n]) && (s[n].targetId != 0 || hasDefault)
                    then [Write(s[n].targetId, s[n].id)] else []
  {
    hide Takes;
    assert s[..n + 1][..n] == s[..n];
    var takers := Takers(f, targets, s[..n]);
    assert (takers + [n])[..|takers|] == takers;
    if !Takes(f, targets, s[n]) {
      assert takers + [] == takers;
    }
  }

  /** Where a message with the filters of its list goes: to the target of each filter that
      takes it; if none does, to the default target. */
  function Routed(f: Meta, targets: set<int>, hasDefault: bool, s: seq<Filter>): seq<Write>
    requires MetaOk(f)
  {
    var takers := Takers(f, targets, s);
    if takers == [] && hasDefault then [Write(0, 0)] else WritesTo(s, takers, hasDefault)
  }

  lemma {:induction false} NoMatchNoTaker(f: Meta, targets: set<int>, s: seq<Filter>)
    requires MetaOk(f) && !AnyMeets(s, f.level)
    ensures Takers(f, targets, s) == []
    decreases |s|
  {
    hide Meets;
    if s != [] {
      var n := |s| - 1;
      forall i | 0 <= i < n
        ensures !Meets(s[..n][i].levelMask, f.level)
      {
        assert s[..n][i] == s[i];
      }
      NoMatchNoTaker(f, targets, s[..n]);
    }
  }

  class Router {
    var table: map<int, FilterList>
    var targets: set<int>
    var hasDefault: bool
    var options: Options
    var nextFilterId: int

    const maxFilters: nat        // in one list

    /** The lists are there, each on its own. */
    ghost predicate Valid()
      reads this, set h | h in table :: table[h], set h | h in table :: table[h].list
    {
      && nextFilterId > 0
      && (forall h {:trigger table[h]} | h in table ::
            table[h].Valid() && table[h].list.Length == maxFilters && IdsAscend(table[h].Contents, nextFilterId))
      && (forall h, j {:trigger table[h], table[j]} | h in table && j in table && h != j ::
            table[h] != table[j] && table[h].list != table[j].list)
    }

    /** A full list has no end mark. */
    ghost predicate NoneFull()
      reads this, set h | h in table :: table[h]
    {
      forall h {:trigger table[h]} | h in table :: |table[h].Contents| < maxFilters
    }

    constructor (hasDefault: bool, options: Options, maxFilters: nat)
      ensures Valid() && NoneFull() && table == map[] && targets == {} && nextFilterId == 1
      ensures this.hasDefault == hasDefault && this.options == options && this.maxFilters == maxFilters
    {
      table, targets, nextFilterId := map[], {}, 1;
      this.hasDefault, this.options, this.maxFilters := hasDefault, options, maxFilters;
    }

    /** A target other than the default one is ready. */
    method AddTarget(id: int)
      requires Valid() && id != 0
      modifies this`targets
      ensures Valid() && targets == old(targets) + {id}
    {
      targets := targets + {id};
    }

    method Sift(f: Meta) returns (r: bool, f': Meta)
      requires MetaOk(f)
      ensures (r, f') == Sifted(options, table.Keys, f)
    {
      hide Meets;
      hide HashOf;
      r, f' := false, f;
      if Meets(options.levelFilterOutMask, f.level) {
        return;
      }
      if !HasCache(f) {
        var h0, h1, h2 := HashOf(f.tag, f.origin, 0), HashOf(f.tag, f.origin, 1), HashOf(f.tag, f.origin, 2);
        f' := f.(hashes := [h0, h1, h2]);
        if h0 in table {
          r := true;
          f' := f'.(lists := f'.lists[0 := Some(h0)]);
        }
        if !r && h1 in table {
          r := true;
          f' := f'.(lists := f'.lists[1 := Some(h1)]);
        }
        if !r && h2 in table {
          r := true;
          f' := f'.(lists := f'.lists[2 := Some(h2)]);
        }
        if !r && HashOf(f.tag, f.origin, 3) in table {
          r := true;
          f' := f'.(lists := f'.lists[3 := Some(HashOf(f.tag, f.origin, 3))]);
        }
        r := r || !options.defaultFilterOut;
      } else {
        r := true;
      }
    }

    method IsIgnored(f: Meta, id: int) returns (ignore: bool)
      requires MetaOk(f)
      ensures ignore <==> f.hasIgnores && Ignored(f.ignoreList, id)
    {
      ignore := false;
      if f.hasIgnores {
        var x := 0;
        while x < MAX_IGNORE_LIST
          invariant 0 <= x <= MAX_IGNORE_LIST && forall y | 0 <= y < x :: f.ignoreList[y] != 0 && f.ignoreList[y] != id
        {
          if f.ignoreList[x] == 0 {
            return;
          }
          if f.ignoreList[x] == id {
            return true;
          }
          x := x + 1;
        }
      }
    }

    /** One filter of the list. */
    method RouteOne(f: Meta, t: Filter) returns (writes: seq<Write>, took: bool)
      requires MetaOk(f)
      ensures took <==> Takes(f, targets, t)
      ensures writes == if took && (t.targetId != 0 || hasDefault) then [Write(t.targetId, t.id)] else []
    {
      hide Meets;
      hide Ignored;
      writes, took := [], false;
      if Meets(t.levelMask, f.level) && !t.disabled {
        var ignore := IsIgnored(f, t.targetId);
        if t.targetId == 0 {
          if hasDefault {
            writes := [Write(0, t.id)];
          }
          took := true;
        } else if !ignore && t.targetId in targets {
          writes := [Write(t.targetId, t.id)];
          took := true;
        }
      }
    }

    /** The filters of one list, up to the end mark: there must be one if the list has any
        filter for the level. */
    method RouteList(f: Meta, l: FilterList) returns (writes: seq<Write>, wrote: bool)
      requires MetaOk(f) && l.Valid() && (AnyMeets(l.Contents, f.level) ==> |l.Contents| < l.list.Length)
      ensures writes == WritesTo(l.Contents, Takers(f, targets, l.Contents), hasDefault)
      ensures wrote <==> Takers(f, targets, l.Contents) != []
    {
      hide Masks;
      hide AnyMeets;
      hide Takes;
      hide Takers;
      hide WritesTo;
      writes, wrote := [], false;
      NothingToWrite(l.Contents, hasDefault);
      var valid := l.IsValid(f.level);
      if !valid {
        NoMatchNoTaker(f, targets, l.Contents);
        return;
      }
      var n := 0;
      NoTakers(f, targets);
      while l.list[n].id != 0
        invariant 0 <= n <= |l.Contents|
        invariant writes == WritesTo(l.Contents, Takers(f, targets, l.Contents[..n]), hasDefault)
        invariant wrote <==> Takers(f, targets, l.Contents[..n]) != []
        decreases |l.Contents| - n
      {
        OneMoreTaker(f, targets, hasDefault, l.Contents, n);
        var more, took := RouteOne(f, l.list[n]);
        writes, wrote := writes + more, wrote || took;
        n := n + 1;
      }
      assert l.Contents[..n] == l.Contents;
    }

    /** NEW_LOG, for message f0 as it came in or as it was when it had been sifted, with
        success, by the thread that logged it. */
    method HandleNewLog(f: Meta, ghost f0: Meta) returns (writes: seq<Write>)
      requires Valid() && Uncached(f0)
      requires f == f0 || (Sifted(options, table.Keys, f0).0 && f == Sifted(options, table.Keys, f0).1)
      requires var k := FirstList(table.Keys, f0); k < 4 ==>
                 var s := table[HashOf(f0.tag, f0.origin, k)].Contents; AnyMeets(s, f0.level) ==> |s| < maxFilters
      ensures var k := FirstList(table.Keys, f0);
              writes ==
              if !Sifted(options, table.Keys, f0).0 then []
              else Routed(f0, targets, hasDefault, if k < 4 then table[HashOf(f0.tag, f0.origin, k)].Contents else [])
    {
      hide Meets;
      hide HashOf;
      hide Takers;
      hide WritesTo;
      SiftTwice(options, table.Keys, f0);
      writes := [];
      var sifted, f' := Sift(f);
      if sifted {
        var wrote := false;
        ghost var k := FirstList(table.Keys, f0);
        ghost var s := if k < 4 then table[HashOf(f0.tag, f0.origin, k)].Contents else [];
        NoTakers(f0, targets);
        SameTakers(f0, f', targets, s);
        for i := 0 to 4
          invariant if k < i then writes == WritesTo(s, Takers(f0, targets, s), hasDefault)
                    && (wrote <==> Takers(f0, targets, s) != [])
                    else writes == [] && !wrote
        {
          if f'.lists[i].Some? {
            assert i == k;
            var more, w := RouteList(f', table[f'.lists[i].value]);
            writes, wrote := writes + more, wrote || w;
          }
        }
        if !wrote && hasDefault {
          writes := writes + [Write(0, 0)];
        }
        NothingToWrite(s, hasDefault);
      }
    }

    /** _addFilter: to the list of the tag and origin, which may be new. It fails exactly if
        that list is full; the number is used up all the same. */
    method AddFilter(target: int, origin: int, tag: int, level: Level) returns (added: bool, id: int)
      requires Valid() && Is32(tag) && Is32(origin)
      modifies this`table, this`nextFilterId, set h | h in table :: table[h], set h | h in table :: table[h].list
      ensures Valid() && id == old(nextFilterId) && nextFilterId == id + 1
      ensures table.Keys == old(table.Keys) + {FilterHash(tag, origin)}
      ensures var h := FilterHash(tag, origin); var was := if h in old(table) then old(table[h].Contents) else [];
              && (added <==> |was| < maxFilters)
              && table[h].Contents == if added then was + [Filter(id, level, target, false)] else was
      ensures forall h | h in old(table) ::
                h in table && table[h] == old(table[h])
                  && (h != FilterHash(tag, origin) ==> table[h].Contents == old(table[h].Contents))
      ensures forall h | h in table && h !in old(table) :: fresh(table[h]) && fresh(table[h].list)
      ensures old(NoneFull()) ==> (NoneFull() <==> |table[FilterHash(tag, origin)].Contents| < maxFilters)
    {
      hide FilterHash;
      hide FilterList.Valid;
      hide IdsAscend;
      var hash := FilterHash(tag, origin);
      MakeList(hash);
      id := TakeNumber();
      NextIdAscends(table[hash].Contents, Filter(id, level, target, false));
      added := table[hash].Add(Filter(id, level, target, false));
    }

    /** The number of a new filter is above those of all filters. */
    method TakeNumber() returns (id: int)
      requires Valid()
      modifies this`nextFilterId
      ensures Valid() && id == old(nextFilterId) && nextFilterId == id + 1
      ensures forall h | h in table :: IdsAscend(table[h].Contents, id)
    {
      hide FilterList.Valid;
      hide IdsAscend;
      id := nextFilterId;
      forall h | h in table
        ensures IdsAscend(table[h].Contents, id + 1)
      {
        NextIdAscends(table[h].Contents, Filter(id, 0, 0, false));
      }
      nextFilterId := nextFilterId + 1;
    }

    /** A list for the hash, if there is none yet. */
    method MakeList(hash: int)
      requires Valid()
      modifies this`table
      ensures Valid() && table.Keys == old(table.Keys) + {hash}
      ensures forall h | h in old(table) :: h in table && table[h] == old(table[h])
      ensures hash !in old(table) ==> fresh(table[hash]) && fresh(table[hash].list) && table[hash].Contents == []
    {
      hide FilterList.Valid;
      if hash !in table {
        var list := new FilterList(maxFilters);
        table := table[hash := list];
      }
    }

    /** _lookupFilter, and what modifying sets in the filter found. */
    method ModifyFilter(origin: int, tag: int, id: int, disable: Option<bool>, target: Option<int>)
        returns (found: bool)
      requires Valid() && Is32(tag) && Is32(origin) && id > 0
      modifies set h | h in table :: table[h]`Contents, set h | h in table :: table[h].list
      ensures Valid()
      ensures forall h | h in table ::
                table[h].Contents == if h == FilterHash(tag, origin)
                                     then Modified(old(table[h].Contents), id, disable, target)
                                       else old(table[h].Contents)
      ensures found <==> FilterHash(tag, origin) in table
                         && exists i :: 0 <= i < |old(table[FilterHash(tag, origin)].Contents)|
                                        && old(table[FilterHash(tag, origin)].Contents)[i].id == id
    {
      hide FilterHash;
      hide FilterList.Valid;
      found := false;
      var hash := FilterHash(tag, origin);
      if hash in table {
        found := table[hash].Modify(id, disable, target, nextFilterId);
      }
    }
  }

  /** With a default target: one write for each filter that takes the message, in the
      order of the list, or the one write to the default target. */
  lemma {:induction false} RoutedOnce(f: Meta, targets: set<int>, s: seq<Filter>)
    requires MetaOk(f)
    ensures var takers, writes := Takers(f, targets, s), Routed(f, targets, true, s);
            if takers == [] then writes == [Write(0, 0)]
            else |writes| == |takers| && forall i | 0 <= i < |takers| ::
                   0 <= takers[i] < |s| && writes[i] == Write(s[takers[i]].targetId, s[takers[i]].id)
  {
    TakersAre(f, targets, s);
    var takers := Takers(f, targets, s);
    forall i | 0 <= i < |takers|
      ensures 0 <= takers[i] < |s|
    {
      assert takers[i] in takers;
    }
    EachIsWritten(s, takers);
  }

  lemma {:induction false} EachIsWritten(s: seq<Filter>, takers: seq<int>)
    requires forall i | 0 <= i < |takers| :: 0 <= takers[i] < |s|
    ensures |WritesTo(s, takers, true)| == |takers|
    ensures forall i | 0 <= i < |takers| ::
              WritesTo(s, takers, true)[i] == Write(s[takers[i]].targetId, s[takers[i]].id)
    decreases |takers|
  {
    if takers != [] {
      EachIsWritten(s, takers[..|takers| - 1]);
    }
  }

  lemma NoTakers(f: Meta, targets: set<int>)
    requires MetaOk(f)
    ensures Takers(f, targets, []) == []
  {
  }

  lemma NothingToWrite(s: seq<Filter>, hasDefault: bool)
    ensures WritesTo(s, [], hasDefault) == []
  {
  }

  /** The cache plays no part in matching. */
  lemma {:induction false} SameTakers(f: Meta, f': Meta, targets: set<int>, s: seq<Filter>)
    requires MetaOk(f) && MetaOk(f') && f'.level == f.level && f'.hasIgnores == f.hasIgnores
             && f'.ignoreList == f.ignoreList
    ensures Takers(f', targets, s) == Takers(f, targets, s)
    decreases |s|
  {
    hide Meets;
    if s != [] {
      SameTakers(f, f', targets, s[..|s| - 1]);
    }
  }
}
