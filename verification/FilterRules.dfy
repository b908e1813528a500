/** What sifting and routing decide, said of the level masks, the filters, the ignore list
    and the targets themselves. */
module FilterRules {
  import opened Common
  import opened FilterRouting

  /** Key k of the four under which a filter list is looked up. */
  function Key(f: Meta, k: int): int
  {
    if k == 0 then FilterHash(f.tag, f.origin)
    else if k == 1 then FilterHash(0, f.origin)
    else if k == 2 then FilterHash(f.tag, 0)
    else FilterHash(0, 0)
  }

  /** The first key with a list: both tag and origin, else the origin alone, else the tag
      alone, else neither. */
  predicate IsFirst(keys: set<int>, f: Meta, k: int)
  {
    0 <= k < 4 && Key(f, k) in keys && forall j | 0 <= j < k :: Key(f, j) !in keys
  }

  lemma KeysAre(f: Meta)
    requires MetaOk(f)
    ensures forall k | 0 <= k < 4 :: HashOf(f.tag, f.origin, k) == Key(f, k)
  {
    HashParts(f.tag, f.origin);
  }

  /** A level in the filter-out mask is turned down and nothing else about the message
      matters. Otherwise a message with a cache passes as it is; and one without gets the
      three hashes and the first list there is, and passes if there is one or unless the
      default is to filter out. */
  lemma SiftedIs(g: Options, keys: set<int>, f: Meta)
    requires MetaOk(f)
    ensures var (r, f') := Sifted(g, keys, f);
            if OneLevel(g.levelFilterOutMask, f.level) then !r && f' == f
            else if f.hashes[0] != 0xFFFF_FFFF_FFFF_FFFF then r && f' == f
            else
              && (r <==> (exists k :: IsFirst(keys, f, k)) || !g.defaultFilterOut)
              && f'.hashes == [Key(f, 0), Key(f, 1), Key(f, 2)] && |f'.lists| == 4
              && (forall k | 0 <= k < 4 ::
                    f'.lists[k] == if IsFirst(keys, f, k) then Some(Key(f, k)) else f.lists[k])
              && f' == f.(hashes := f'.hashes, lists := f'.lists)
  {
    hide Meets;
    hide OneLevel;
    hide HashOf;
    hide Key;
    MeetsIs(g.levelFilterOutMask, f.level);
    KeysAre(f);
    FirstIs(keys, f);
    if FirstList(keys, f) < 4 {
      assert IsFirst(keys, f, FirstList(keys, f));
    }
  }

  lemma MeetsIs(mask: Level, level: Level)
    ensures Meets(mask, level) <==> OneLevel(mask, level)
  {
  }

  lemma FirstIs(keys: set<int>, f: Meta)
    requires MetaOk(f)
    ensures var k := FirstList(keys, f);
            && (forall j :: IsFirst(keys, f, j) <==> j == k && k < 4)
            && (k < 4 ==> Key(f, k) == HashOf(f.tag, f.origin, k))
  {
    hide Key;
    hide HashOf;
    KeysAre(f);
  }

  /** Some level is in both. */
  predicate OneLevel(mask: Level, level: Level)
  {
    mask & level != 0
  }

  /** The filter is on, its mask has the level, and its target is the default one or is
      there and not in the message's ignore list before the end of that. */
  predicate Deliverable(f: Meta, targets: set<int>, t: Filter)
    requires MetaOk(f)
  {
    && !t.disabled && OneLevel(t.levelMask, f.level)
    && (t.targetId == 0 || (t.targetId in targets && !(f.hasIgnores && InIgnoreList(f, t.targetId))))
  }

  predicate InIgnoreList(f: Meta, id: int)
    requires MetaOk(f)
  {
    exists x :: 0 <= x < 10 && f.ignoreList[x] == id && forall y | 0 <= y < x :: f.ignoreList[y] != 0
  }

  lemma TakesIff(f: Meta, targets: set<int>, t: Filter)
    requires MetaOk(f)
    ensures Takes(f, targets, t) <==> Deliverable(f, targets, t)
  {
    hide Meets;
    hide OneLevel;
    hide Ignored;
    hide InIgnoreList;
    MeetsIs(t.levelMask, f.level);
    if t.targetId != 0 {
      IgnoredIff(f, t.targetId);
    }
  }

  /** What modifying a filter makes of it: as it was, but on or off as said, and for the
      target said. So one that is turned off takes nothing from then on, and one that is
      turned on takes what its mask and its target let it. */
  lemma ModifiedTakesIff(f: Meta, targets: set<int>, s: seq<Filter>, n: nat, disable: Option<bool>,
                         target: Option<int>)
    requires MetaOk(f) && n < |s|
    ensures var t := Modified(s, s[n].id, disable, target)[n];
            && t == Filter(s[n].id, s[n].levelMask, t.targetId, t.disabled)
            && t.targetId == (if target.None? then s[n].targetId else target.value)
            && (t.disabled <==> disable == Some(true) || (disable == None && s[n].disabled))
            && (disable == Some(true) ==> !Takes(f, targets, t))
            && (disable == Some(false) && target == None ==>
                  (Takes(f, targets, t) <==> Deliverable(f, targets, s[n].(disabled := false))))
  {
    TakesIff(f, targets, Modified(s, s[n].id, disable, target)[n]);
    hide Takes;
    hide InIgnoreList;
    hide OneLevel;
  }

  lemma IgnoredIff(f: Meta, id: int)
    requires MetaOk(f) && id != 0
    ensures Ignored(f.ignoreList, id) <==> InIgnoreList(f, id)
  {
    if x :| 0 <= x < MAX_IGNORE_LIST && f.ignoreList[x] == id && forall y | 0 <= y < x :: f.ignoreList[y] != 0 {
      assert forall y | 0 <= y <= x :: f.ignoreList[y] != 0;
    }
    if x :| 0 <= x < MAX_IGNORE_LIST && f.ignoreList[x] == id && forall y | 0 <= y <= x :: f.ignoreList[y] != 0 {
      assert forall y | 0 <= y < x :: f.ignoreList[y] != 0;
    }
  }

  /** Where the message goes: one write for each filter of the list that can deliver it, in
      the order of the list, except to a default target that is not there. If no filter
      can, there is the one write to the default target. So a disabled filter, an ignored
      target and an unknown target get none. */
  lemma RoutedExactly(f: Meta, targets: set<int>, hasDefault: bool, s: seq<Filter>) returns (places: seq<int>)
    requires MetaOk(f)
    ensures forall i, j | 0 <= i < j < |places| :: places[i] < places[j]
    ensures forall n {:trigger n in places} :: n in places <==>
              0 <= n < |s| && Deliverable(f, targets, s[n]) && (s[n].targetId != 0 || hasDefault)
    ensures var writes := Routed(f, targets, hasDefault, s);
            if hasDefault && forall n | 0 <= n < |s| :: !Deliverable(f, targets, s[n]) then writes == [Write(0, 0)]
            else |writes| == |places| && forall i | 0 <= i < |places| ::
                   places[i] in places && writes[i] == Write(s[places[i]].targetId, s[places[i]].id)
  {
    hide Takes;
    hide Deliverable;
    forall t
      ensures Takes(f, targets, t) <==> Deliverable(f, targets, t)
    {
      TakesIff(f, targets, t);
    }
    TakersAre(f, targets, s);
    var takers := Takers(f, targets, s);
    hide Takers;
    if n :| 0 <= n < |s| && Deliverable(f, targets, s[n]) {
      assert n in takers;
    }
    if takers != [] {
      assert takers[0] in takers;
    }
    forall i | 0 <= i < |takers|
      ensures 0 <= takers[i] < |s|
    {
      assert takers[i] in takers;
    }
    places := WrittenPlaces(s, takers, hasDefault);
  }

  lemma {:induction false} WrittenPlaces(s: seq<Filter>, takers: seq<int>, hasDefault: bool) returns (places: seq<int>)
    requires forall i | 0 <= i < |takers| :: 0 <= takers[i] < |s|
    requires forall i, j | 0 <= i < j < |takers| :: takers[i] < takers[j]
    ensures forall i, j | 0 <= i < j < |places| :: places[i] < places[j]
    ensures forall n {:trigger n in places} :: n in places <==>
              n in takers && 0 <= n < |s| && (s[n].targetId != 0 || hasDefault)
    ensures var writes := WritesTo(s, takers, hasDefault);
            |writes| == |places| && forall i | 0 <= i < |places| ::
              places[i] in places && writes[i] == Write(s[places[i]].targetId, s[places[i]].id)
    decreases |takers|
  {
    places := [];
    if takers != [] {
      var m := |takers| - 1;
      places := WrittenPlaces(s, takers[..m], hasDefault);
      forall i | 0 <= i < |places|
        ensures places[i] < takers[m]
      {
        assert places[i] in takers[..m];
      }
      if s[takers[m]].targetId != 0 || hasDefault {
        places := places + [takers[m]];
      }
    }
  }
}
