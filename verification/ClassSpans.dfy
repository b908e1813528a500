/** Where the tables of size classes meet the central free list: the numbers that the lists
    are set up with, and what Populate makes of a span of the table. */
module ClassSpans {
  import opened Arithmetic
  import opened CentralFreeLists
  import opened CentralLists
  import opened CentralRuns
  import opened CentralSystems
  import opened Lists
  import opened SizeMaps

  /** Objects moved at a time and objects per span, as the tables of Init say. Class 0 is
      for sizes that have no class; its list stays empty. */
  ghost function ConfigOf(g: Config, c: nat): ClassConfig
    requires ConfigOk(g) && c < |Classes(g).sizes|
  {
    if c == 0 then ClassConfig(1, 1)
    else
      ClassesWasteLittle(g, c);
      ClassConfig(NumMoveSize(g, Classes(g).sizes[c]), SpanOf(g, c) / Classes(g).sizes[c])
  }

  /** The bytes of a span of class c. */
  ghost function SpanOf(g: Config, c: nat): int
    requires ConfigOk(g) && 1 <= c < |Classes(g).sizes|
  {
    ClassesWasteLittle(g, c);
    Classes(g).pages[c] * PageSize(g)
  }

  lemma ConfigIsOk(g: Config, c: nat)
    requires ConfigOk(g) && c < |Classes(g).sizes|
    ensures ConfigOf(g, c).move >= 1 && ConfigOf(g, c).total >= 1
    ensures c >= 1 ==> Classes(g).sizes[c] > 0 && ConfigOf(g, c).total == SpanOf(g, c) / Classes(g).sizes[c]
  {
    hide Classes;
    if c > 0 {
      ClassesWasteLittle(g, c);
    }
  }

  /** Populate on a span of class c: at least one object, all of them inside the span and
      apart, and at most an eighth of the span left over. */
  lemma PopulateFillsSpan(g: Config, c: nat, start: int)
    requires ConfigOk(g) && 1 <= c < |Classes(g).sizes|
    ensures var size, span, n := Classes(g).sizes[c], SpanOf(g, c), ConfigOf(g, c).total;
            && size > 0 && n >= 1
            && var all := Carved(start, size, n);
            && |all| == n && Distinct(all)
            && (forall i | 0 <= i < n :: start <= all[i] && all[i] + size <= start + span)
            && (forall i, j | 0 <= i < j < n :: all[i] + size <= all[j])
            && 0 <= span - n * size <= span / 8
  {
    ConfigIsOk(g, c);
    ClassesWasteLittle(g, c);
    hide Classes;
    hide Carved;
    var size, span := Classes(g).sizes[c], SpanOf(g, c);
    Quotient(size, span);
    CarvedIsApart(start, size, span, span / size);
  }

  /** The last object of a span to come back takes as many free objects out of the count
      as Populate has put in. */
  lemma ReleaseTakesSpan(k: int, g: Config, c: nat, l: Central, cells: Cells, o: int, start: int)
    requires ConfigOk(g) && 1 <= c < |Classes(g).sizes|
    requires ClassOk(k, ConfigOf(g, c), l, cells) && o in cells && cells[o].class_ == k && cells[o].place.Held?
    ensures cells[o].span in l.spans
    ensures var s := cells[o].span; Dies(l, s) ==>
              && |l.spans[s].objects| == ConfigOf(g, c).total - 1
              && Released(ConfigOf(g, c), l, s, o).counter == l.counter - |l.spans[s].objects|
              && |l.spans[s].all| == |Carved(start, Classes(g).sizes[c], ConfigOf(g, c).total)|
  {
    hide Classes;
    ReleaseKeepsClass(k, ConfigOf(g, c), l, cells, o, 0);
    var s := cells[o].span;
    assert SpanOk(ConfigOf(g, c).total, l.spans[s]);
  }

  /** The numbers of all classes; a list has no use for the size of class 0. */
  ghost predicate FromTables(g: Config, configs: seq<ClassConfig>, bytes: seq<int>)
    requires ConfigOk(g)
  {
    && |configs| == |bytes| == |Classes(g).sizes|
    && forall c {:trigger configs[c]} {:trigger bytes[c]} | 0 <= c < |configs| ::
         configs[c] == ConfigOf(g, c) && bytes[c] == if c == 0 then 1 else Classes(g).sizes[c]
  }

  lemma TablesArePositive(g: Config, configs: seq<ClassConfig>, bytes: seq<int>)
    requires ConfigOk(g) && FromTables(g, configs, bytes)
    ensures |bytes| == |configs|
    ensures forall c {:trigger configs[c]} {:trigger bytes[c]} | 0 <= c < |configs| ::
              configs[c].move >= 1 && configs[c].total >= 1 && bytes[c] > 0
  {
    hide Classes;
    forall c | 0 <= c < |configs|
      ensures configs[c].move >= 1 && configs[c].total >= 1 && bytes[c] > 0
    {
      ConfigIsOk(g, c);
      assert configs[c] == ConfigOf(g, c);
    }
  }

  /** With the numbers of the tables, every run of the central free lists begins well. */
  lemma TablesStartRuns(g: Config, configs: seq<ClassConfig>, sys: System, entries: int, start: int, bytes: seq<int>)
    requires ConfigOk(g) && FromTables(g, configs, bytes) && |sys.classes| == |configs| && 0 <= start <= entries
    requires sys.cells == map[] && sys.locks == map[] && forall t | 0 <= t < |sys.threads| :: sys.threads[t] == Idle
    requires forall c {:trigger sys.classes[c]} | 0 <= c < |configs| ::
               && bytes[c] > 0 && configs[c].move > 0
               && sys.classes[c] == InitialCentral(c, entries, start, bytes[c], configs[c].move)
    ensures Inv(configs, sys)
    ensures forall c | 0 <= c < |configs| :: sys.classes[c].cacheSize <= start
  {
    hide FromTables;
    hide InitialCentral;
    hide Inv;
    TablesArePositive(g, configs, bytes);
    InitialInv(configs, sys, entries, start, bytes);
  }
}
