/** The address map of the heap checker: a hash table of clusters, each cluster
    an array of per-block lists, and a free list refilled 64 entries at a time.
    Records live in a memory indexed by pointer values, so links and aliasing are
    explicit. Addresses are unbounded naturals; the shifts and masks on addresses are
    written as the divisions they stand for (AddressBits). */
module AddressMaps {
  import opened Common
  import opened Lists

  const CLUSTER_BLOCKS: nat := 8192
  const HASH_SIZE: nat := 4096

  function ClusterID(address: int): int
  {
    address / 0x10_0000
  }

  /** The block of an address within its cluster. */
  function BlockID(address: int): (b: int)
    ensures 0 <= b < CLUSTER_BLOCKS
    ensures BlockNumber(address) == BlockOf(ClusterID(address), b)
  {
    address / 128 % 8192
  }

  /** The block of an address in the whole address space. */
  function BlockNumber(address: int): int
  {
    address / 128
  }

  function BlockOf(cluster: int, block: int): int
  {
    cluster * 8192 + block
  }

  /** Multiplicative hash on 32-bit arithmetic, keeping the top 12 bits. */
  function HashInt(x: int): (h: int)
    ensures 0 <= h < HASH_SIZE
  {
    ((x % 0x1_0000_0000) * 2654435769 % 0x1_0000_0000) / 0x10_0000
  }

  /** What the shifts and masks compute on 64-bit addresses. */
  lemma AddressBits(n: bv64)
    ensures n >= 128 ==> (n | 127) - 128 == (n / 128) * 128 - 1
    ensures n >= 0x10_0000 ==> (n | 0xF_FFFF) - 0x10_0000 == (n / 0x10_0000) * 0x10_0000 - 1
    ensures (n >> 7) & 8191 == (n / 128) % 8192
    ensures n >> 20 == n / 0x10_0000
  {
  }

  // ---------- Records in memory ----------

  type Ptr = int

  // A list of entries is named by the number of its block, or FREE; a chain of
  // clusters by its hash.
  const FREE: int := -1

  /** Which list a record is on, and how far from the end: rank falls along next. */
  datatype Tag = Tag(home: int, rank: int)

  /** One above the highest rank on a list; 0 for the empty list. */
  ghost function Height(height: map<int, int>, home: int): int
  {
    if home in height then height[home] else 0
  }

  /** p is the first record of the list: NULL exactly when the list is empty. */
  ghost predicate HeadOk(p: Ptr, home: int, tag: seq<Tag>, height: map<int, int>)
  {
    if p == NULL then Height(height, home) == 0
    else 0 < p < |tag| && tag[p].home == home && tag[p].rank + 1 == Height(height, home)
  }

  /** q comes after p on the list they share. */
  ghost predicate After(tag: seq<Tag>, p: Ptr, q: Ptr)
  {
    0 < p < |tag| && 0 < q < |tag| && tag[p].home == tag[q].home && tag[q].rank < tag[p].rank
  }

  ghost predicate SamePlace(tag: seq<Tag>, p: Ptr, q: Ptr)
  {
    0 < p < |tag| && 0 < q < |tag| && tag[p].home == tag[q].home && tag[q].rank == tag[p].rank
  }

  /** Following next from any record runs through exactly the records of its list
      that have a lower rank; so lists are acyclic, disjoint and lose no record. */
  ghost predicate ListsOk(next: seq<Ptr>, tag: seq<Tag>, height: map<int, int>)
  {
    && 0 < |next| == |tag|
    && (forall p {:trigger tag[p]} | 0 < p < |tag| :: 0 <= tag[p].rank < Height(height, tag[p].home))
    && (forall p {:trigger next[p]} | 0 < p < |tag| && next[p] != NULL :: After(tag, p, next[p]))
    && (forall p, q {:trigger After(tag, p, q)} | After(tag, p, q) ::
          next[p] != NULL && 0 < next[p] < |tag| && tag[q].rank <= tag[next[p]].rank)
    && (forall p, q {:trigger SamePlace(tag, p, q)} | SamePlace(tag, p, q) :: p == q)
  }

  /** From p, a record that comes after it is the next one or comes after that. */
  lemma NextStep(next: seq<Ptr>, tag: seq<Tag>, height: map<int, int>, p: Ptr, q: Ptr)
    requires ListsOk(next, tag, height) && After(tag, p, q)
    ensures 0 < next[p] < |tag| && tag[next[p]].home == tag[p].home
    ensures q == next[p] || After(tag, next[p], q)
  {
    assert SamePlace(tag, next[p], q) || After(tag, next[p], q);
  }

  /** Every record of a list is its head or comes after it. */
  lemma HeadIsFirst(next: seq<Ptr>, tag: seq<Tag>, height: map<int, int>, head: Ptr, q: Ptr)
    requires ListsOk(next, tag, height) && 0 < q < |tag| && HeadOk(head, tag[q].home, tag, height)
    ensures head != NULL && (q == head || After(tag, head, q))
  {
    assert SamePlace(tag, head, q) || After(tag, head, q);
  }

  /** n steps along next. */
  ghost function Follow(next: seq<Ptr>, p: Ptr, n: nat): Ptr
    decreases n
  {
    if n == 0 || !(0 < p < |next|) then p else Follow(next, next[p], n - 1)
  }

  /** What ListsOk means for reachability: the head leads to every record of its
      list, and to no record of any other list. */
  lemma {:induction false} HeadLeadsTo(next: seq<Ptr>, tag: seq<Tag>, height: map<int, int>, head: Ptr, q: Ptr)
    requires ListsOk(next, tag, height) && 0 < q < |tag| && 0 < head < |tag|
    requires HeadOk(head, tag[head].home, tag, height)
    ensures (exists n: nat :: Follow(next, head, n) == q) <==> tag[q].home == tag[head].home
  {
    if tag[q].home == tag[head].home {
      HeadIsFirst(next, tag, height, head, q);
      var n := StepsTo(next, tag, height, head, q);
    }
    forall n: nat | Follow(next, head, n) == q
      ensures tag[q].home == tag[head].home
    {
      FollowFalls(next, tag, height, head, n);
    }
  }

  lemma {:induction false} StepsTo(next: seq<Ptr>, tag: seq<Tag>, height: map<int, int>, p: Ptr, q: Ptr)
      returns (n: nat)
    requires ListsOk(next, tag, height) && 0 < p < |tag| && (q == p || After(tag, p, q))
    ensures Follow(next, p, n) == q
    decreases tag[p].rank
  {
    if q == p {
      n := 0;
    } else {
      assert After(tag, p, next[p]) by {
        NextStep(next, tag, height, p, q);
      }
      NextStep(next, tag, height, p, q);
      n := StepsTo(next, tag, height, next[p], q);
      n := n + 1;
    }
  }

  /** No number of steps leads back: lists are acyclic and end in NULL. */
  lemma {:induction false} FollowFalls(next: seq<Ptr>, tag: seq<Tag>, height: map<int, int>, p: Ptr, n: nat)
    requires ListsOk(next, tag, height) && 0 < p < |tag|
    ensures n > 0 ==> Follow(next, p, n) == NULL || After(tag, p, Follow(next, p, n))
    ensures n > tag[p].rank ==> Follow(next, p, n) == NULL
    decreases n
  {
    if n > 0 && next[p] != NULL {
      assert After(tag, p, next[p]);
      FollowFalls(next, tag, height, next[p], n - 1);
    } else if n > 0 {
      assert Follow(next, NULL, n - 1) == NULL;
    }
  }

  /** A new record at the head of a list. */
  lemma PushKeepsLists(next: seq<Ptr>, tag: seq<Tag>, height: map<int, int>, to: int, head: Ptr)
      returns (tag': seq<Tag>, height': map<int, int>)
    requires ListsOk(next, tag, height)
    requires HeadOk(head, to, tag, height)
    ensures tag' == tag + [Tag(to, Height(height, to))] && height' == height[to := Height(height, to) + 1]
    ensures ListsOk(next + [head], tag', height')
    ensures HeadOk(|next|, to, tag', height')
  {
    tag', height' := tag + [Tag(to, Height(height, to))], height[to := Height(height, to) + 1];
    forall p, q | After(tag', p, q)
      ensures (next + [head])[p] != NULL && tag'[q].rank <= tag'[(next + [head])[p]].rank
    {
      assert p < |tag| ==> After(tag, p, q);
    }
    forall p, q | SamePlace(tag', p, q)
      ensures p == q
    {
      assert p < |tag| && q < |tag| ==> SamePlace(tag, p, q);
    }
  }

  /** Unlinking p from behind pred, or from the head if pred is NULL, and putting
      it at the head of another list. */
  lemma MoveKeepsLists(next: seq<Ptr>, tag: seq<Tag>, height: map<int, int>, p: Ptr, pred: Ptr, to: int, head: Ptr)
      returns (next': seq<Ptr>, tag': seq<Tag>, height': map<int, int>)
    requires ListsOk(next, tag, height) && 0 < p < |tag| && to != tag[p].home
    requires HeadOk(head, to, tag, height)
    requires if pred == NULL then HeadOk(p, tag[p].home, tag, height) else 0 < pred < |next| && next[pred] == p
    ensures next' == (if pred == NULL then next else next[pred := next[p]])[p := head]
    ensures tag' == tag[p := Tag(to, Height(height, to))]
    ensures ListsOk(next', tag', height')
    ensures HeadOk(p, to, tag', height')
    ensures pred == NULL ==> HeadOk(next[p], tag[p].home, tag', height')
    ensures forall g {:trigger Height(height', g)} | g != to && (pred != NULL || g != tag[p].home) ::
              Height(height', g) == Height(height, g)
  {
    var home := tag[p].home;
    next' := (if pred == NULL then next else next[pred := next[p]])[p := head];
    tag' := tag[p := Tag(to, Height(height, to))];
    height' := height[to := Height(height, to) + 1];
    if pred == NULL {
      height' := height'[home := if next[p] == NULL then 0 else tag[next[p]].rank + 1];
    }
    forall a | 0 < a < |tag'|
      ensures 0 <= tag'[a].rank < Height(height', tag'[a].home)
    {
      if pred == NULL && a != p && tag[a].home == home {
        HeadIsFirst(next, tag, height, p, a);
      }
    }
    forall a | 0 < a < |tag'| && next'[a] != NULL
      ensures After(tag', a, next'[a])
    {
      assert next[a] == NULL || After(tag, a, next[a]);
      assert next[p] == NULL || After(tag, p, next[p]);
      assert pred != NULL && a != p && next[a] == p ==>
          SamePlace(tag, a, pred) || After(tag, a, pred) || After(tag, pred, a);
    }
    forall a, b | After(tag', a, b)
      ensures next'[a] != NULL && 0 < next'[a] < |tag'| && tag'[b].rank <= tag'[next'[a]].rank
    {
      if a != p {
        NextStep(next, tag, height, a, b);
        if a == pred {
          NextStep(next, tag, height, p, b);
        }
      }
    }
    forall a, b | SamePlace(tag', a, b)
      ensures a == b
    {
      assert a != p && b != p ==> SamePlace(tag, a, b);
    }
  }

  // ---------- What "the range that holds an address" means ----------

  /** Ranges are disjoint, and no range, empty or not, starts inside another. */
  ghost predicate NonOverlapping<V>(m: map<int, V>, size: V -> nat)
  {
    forall a, b | a in m && b in m && a < b :: a + size(m[a]) <= b
  }

  /** The range at k contains p, or starts at it (which admits empty ranges). */
  ghost predicate Covers<V>(m: map<int, V>, size: V -> nat, k: int, p: int)
  {
    k in m && k <= p && (k == p || p < k + size(m[k]))
  }

  /** The backward walk gets to the block of k before maxSize stops it. */
  predicate InReach(k: int, p: int, maxSize: nat)
  {
    BlockNumber(k) == BlockNumber(p) || p - (BlockNumber(k) * 128 + 127) <= maxSize
  }

  ghost function Resolve<V>(m: map<int, V>, size: V -> nat, maxSize: nat, p: int): Option<int>
  {
    if exists k :: Covers(m, size, k, p) && InReach(k, p, maxSize)
    then Some(var k :| Covers(m, size, k, p) && InReach(k, p, maxSize); k)
    else None
  }

  lemma CoverIsUnique<V>(m: map<int, V>, size: V -> nat, j: int, k: int, p: int)
    requires NonOverlapping(m, size)
    requires Covers(m, size, j, p) && Covers(m, size, k, p)
    ensures j == k
  {
  }

  /** No key at or before p lies in a block after that of num. */
  ghost predicate NoneAfter<V>(m: map<int, V>, p: int, num: int)
  {
    forall k {:trigger BlockNumber(k)} | k in m && k <= p :: BlockNumber(k) <= BlockNumber(num)
  }

  lemma ResolvedIsStored<V>(m: map<int, V>, size: V -> nat, maxSize: nat, p: int)
    ensures var r := Resolve(m, size, maxSize, p); r.Some? ==> r.value in m
  {
  }

  lemma NoneAfterAll<V>(m: map<int, V>, p: int)
    ensures NoneAfter(m, p, p)
  {
  }

  lemma FoundIsResolved<V>(m: map<int, V>, size: V -> nat, maxSize: nat, p: nat, num: int, k: int)
    requires NonOverlapping(m, size)
    requires Covers(m, size, k, p) && BlockNumber(k) == BlockNumber(num)
    requires num == p || (num % 128 == 127 && p - num <= maxSize)
    ensures Resolve(m, size, maxSize, p) == Some(k)
  {
    assert InReach(k, p, maxSize);
    forall j | Covers(m, size, j, p)
      ensures j == k
    {
      CoverIsUnique(m, size, j, k, p);
    }
  }

  /** A range before p that does not hold p hides every earlier range. */
  lemma SmallerStops<V>(m: map<int, V>, size: V -> nat, maxSize: nat, p: nat, num: int, w: int)
    requires NonOverlapping(m, size) && NoneAfter(m, p, num)
    requires forall k {:trigger BlockNumber(k)} | k in m && BlockNumber(k) == BlockNumber(num) :: !Covers(m, size, k, p)
    requires w in m && w <= p && BlockNumber(w) == BlockNumber(num)
    ensures Resolve(m, size, maxSize, p) == None
  {
    forall k | k in m && k <= p
      ensures !Covers(m, size, k, p)
    {
      assert BlockNumber(k) <= BlockNumber(num);
      if BlockNumber(k) != BlockNumber(num) {
        assert k + size(m[k]) <= w;
      }
    }
  }

  lemma TooFar<V>(m: map<int, V>, size: V -> nat, maxSize: nat, p: nat, num: int)
    requires NoneAfter(m, p, num) && num % 128 == 127 && num < p && p - num > maxSize
             && BlockNumber(num) < BlockNumber(p)
    ensures Resolve(m, size, maxSize, p) == None
  {
    forall k | Covers(m, size, k, p)
      ensures !InReach(k, p, maxSize)
    {
      assert BlockNumber(k) <= BlockNumber(num);
    }
  }

  lemma NothingLeft<V>(m: map<int, V>, size: V -> nat, maxSize: nat, p: nat)
    requires NoneAfter(m, p, -1) && forall k | k in m :: k >= 0
    ensures Resolve(m, size, maxSize, p) == None
  {
    forall k | k in m
      ensures k > p
    {
      assert k <= p ==> BlockNumber(k) <= BlockNumber(-1);
    }
  }

  /** With a bound that no stored range exceeds, the early stop loses nothing. */
  lemma {:induction false} ResolveIsExact<V>(m: map<int, V>, size: V -> nat, maxSize: nat, p: int, k: int)
    requires NonOverlapping(m, size)
    requires forall a | a in m :: size(m[a]) <= maxSize
    ensures Resolve(m, size, maxSize, p) == Some(k) <==> Covers(m, size, k, p)
  {
    if Covers(m, size, k, p) {
      assert InReach(k, p, maxSize);
    }
    forall j | Covers(m, size, j, p) && Covers(m, size, k, p)
      ensures j == k
    {
      CoverIsUnique(m, size, j, k, p);
    }
  }

  /** The memory the map occupies: its hash table and free list, and the cluster
      and entry records, field by field. Slot 0 of each field stands for NULL. */
  datatype Memory<V> = Memory(
    hashtable: seq<Ptr>, free: Ptr,
    clusterNext: seq<Ptr>, clusterId: seq<int>, blocks: seq<seq<Ptr>>,
    entryNext: seq<Ptr>, entryKey: seq<int>, entryValue: seq<V>)

  /** How the memory is to be read: the record of each cluster id and of each key,
      and the place of each record. */
  datatype Shape = Shape(
    cluster: map<int, Ptr>, clusterTag: seq<Tag>, clusterHeight: map<int, int>,
    index: map<int, Ptr>, entryTag: seq<Tag>, entryHeight: map<int, int>, batches: nat)

  /** Every cluster is on the chain of its hash. */
  ghost predicate ClustersOk<V>(hash: int -> int, m: Memory<V>, s: Shape)
  {
    && (forall x {:trigger hash(x)} :: 0 <= hash(x) < |m.hashtable|)
    && ListsOk(m.clusterNext, s.clusterTag, s.clusterHeight)
    && |m.clusterNext| == |m.clusterId|
    && (forall h {:trigger m.hashtable[h]} | 0 <= h < |m.hashtable| ::
          HeadOk(m.hashtable[h], h, s.clusterTag, s.clusterHeight))
    && (forall c {:trigger m.clusterId[c]} | 0 < c < |m.clusterId| ::
          m.clusterId[c] >= 0 && s.clusterTag[c].home == hash(m.clusterId[c]) && m.clusterId[c] in s.cluster
            && s.cluster[m.clusterId[c]] == c)
    && (forall i {:trigger s.cluster[i]} | i in s.cluster ::
          0 < s.cluster[i] < |m.clusterId| && m.clusterId[s.cluster[i]] == i)
  }

  /** Every entry is on the free list or, once, on the list of its key's block. */
  ghost predicate EntriesOk<V>(m: Memory<V>, s: Shape)
  {
    && ListsOk(m.entryNext, s.entryTag, s.entryHeight)
    && |m.entryNext| == |m.entryKey| == |m.entryValue| == 1 + 64 * s.batches
    && HeadOk(m.free, FREE, s.entryTag, s.entryHeight)
    && (forall p {:trigger m.entryKey[p]} | 0 < p < |m.entryKey| && s.entryTag[p].home != FREE ::
          m.entryKey[p] in s.index && s.index[m.entryKey[p]] == p)
    && (forall k {:trigger s.index[k]} | k in s.index ::
          && k >= 0 && 0 < s.index[k] < |m.entryKey|
          && m.entryKey[s.index[k]] == k && s.entryTag[s.index[k]].home == BlockNumber(k))
  }

  /** Each block of each cluster heads the list of that block. */
  ghost predicate BlocksOk<V>(m: Memory<V>, s: Shape)
  {
    && |m.blocks| == |m.clusterId|
    && (forall c {:trigger m.blocks[c]} | 0 < c < |m.blocks| :: |m.blocks[c]| == CLUSTER_BLOCKS)
    && (forall c, b {:trigger m.blocks[c][b]} | 0 < c < |m.blocks| && 0 <= b < |m.blocks[c]| ::
          HeadOk(m.blocks[c][b], BlockOf(m.clusterId[c], b), s.entryTag, s.entryHeight))
    && (forall id, b {:trigger BlockOf(id, b)} | id >= 0 && 0 <= b < CLUSTER_BLOCKS && id !in s.cluster ::
          Height(s.entryHeight, BlockOf(id, b)) == 0)
  }

  ghost predicate ContentsOk<V>(m: Memory<V>, s: Shape, contents: map<int, V>)
  {
    && contents.Keys == s.index.Keys
    && (forall k {:trigger contents[k]} {:trigger s.index[k]} | k in s.index ::
          0 <= s.index[k] < |m.entryValue| && contents[k] == m.entryValue[s.index[k]])
  }

  // ---------- One update at a time ----------

  function EmptyBlocks(): (s: seq<Ptr>)
    ensures |s| == CLUSTER_BLOCKS && forall b | 0 <= b < |s| :: s[b] == NULL
  {
    seq(CLUSTER_BLOCKS, _ => NULL)
  }

  function WithCluster<V>(m: Memory<V>, h: int, id: int): Memory<V>
    requires 0 <= h < |m.hashtable|
  {
    m.(hashtable := m.hashtable[h := |m.clusterNext|],
       clusterNext := m.clusterNext + [m.hashtable[h]],
       clusterId := m.clusterId + [id],
       blocks := m.blocks + [EmptyBlocks()])
  }

  lemma NewClusterKeepsShape<V>(hash: int -> int, m: Memory<V>, s: Shape, contents: map<int, V>, id: nat)
      returns (s': Shape)
    requires ClustersOk(hash, m, s) && EntriesOk(m, s) && BlocksOk(m, s) && ContentsOk(m, s, contents)
             && id !in s.cluster
    ensures var m' := WithCluster(m, hash(id), id);
            ClustersOk(hash, m', s') && EntriesOk(m', s') && BlocksOk(m', s') && ContentsOk(m', s', contents)
    ensures id in s'.cluster && s'.cluster[id] == |m.clusterNext|
  {
    var tag, height := PushKeepsLists(m.clusterNext, s.clusterTag, s.clusterHeight, hash(id), m.hashtable[hash(id)]);
    s' := s.(cluster := s.cluster[id := |m.clusterNext|], clusterTag := tag, clusterHeight := height);
  }

  function WithBatch<V>(m: Memory<V>, links: seq<Ptr>): Memory<V>
    requires |links| == 64 && m.entryValue != []
  {
    m.(free := |m.entryNext|,
       entryNext := m.entryNext + links,
       entryKey := m.entryKey + seq(64, _ => 0),
       entryValue := m.entryValue + seq(64, _ => m.entryValue[0]))
  }

  /** array[i].next == &array[i + 1], and the last one continues with the old free list. */
  ghost predicate BatchLinks(links: seq<Ptr>, base: Ptr, free: Ptr)
  {
    |links| == 64 && forall i {:trigger links[i]} | 0 <= i < 64 :: links[i] == if i < 63 then base + i + 1 else free
  }

  lemma BatchKeepsLists(next: seq<Ptr>, tag: seq<Tag>, height: map<int, int>, links: seq<Ptr>)
      returns (tag': seq<Tag>, height': map<int, int>)
    requires ListsOk(next, tag, height) && Height(height, FREE) == 0 && BatchLinks(links, |next|, NULL)
    ensures ListsOk(next + links, tag', height') && HeadOk(|next|, FREE, tag', height')
    ensures |tag'| == |tag| + 64 && (forall p {:trigger tag'[p]} | 0 <= p < |tag| :: tag'[p] == tag[p])
    ensures forall p {:trigger tag'[p]} | |tag| <= p < |tag'| :: tag'[p].home == FREE
    ensures height' == height[FREE := 64]
  {
    var n := |next|;
    tag' := tag + seq(64, i => Tag(FREE, 63 - i));
    height' := height[FREE := 64];
    var next' := next + links;
    assert forall p {:trigger tag[p]} | 0 < p < n :: tag[p].home != FREE;
    forall p | 0 < p < |tag'| && next'[p] != NULL
      ensures After(tag', p, next'[p])
    {
      assert p < n && next[p] != NULL ==> After(tag, p, next[p]);
    }
    forall p, q | After(tag', p, q)
      ensures next'[p] != NULL && 0 < next'[p] < |tag'| && tag'[q].rank <= tag'[next'[p]].rank
    {
      if p < n && q < n {
        NextStep(next, tag, height, p, q);
      }
    }
    forall p, q | SamePlace(tag', p, q)
      ensures p == q
    {
      assert p < n && q < n ==> SamePlace(tag, p, q);
    }
  }

  lemma BatchKeepsShape<V>(hash: int -> int, m: Memory<V>, s: Shape, contents: map<int, V>, links: seq<Ptr>)
      returns (s': Shape)
    requires ClustersOk(hash, m, s) && EntriesOk(m, s) && BlocksOk(m, s) && ContentsOk(m, s, contents)
    requires m.free == NULL && BatchLinks(links, |m.entryNext|, m.free)
    ensures var m' := WithBatch(m, links);
            ClustersOk(hash, m', s') && EntriesOk(m', s') && BlocksOk(m', s') && ContentsOk(m', s', contents)
    ensures s'.cluster == s.cluster && s'.index == s.index && s'.batches == s.batches + 1
  {
    var tag, height := BatchKeepsLists(m.entryNext, s.entryTag, s.entryHeight, links);
    s' := s.(entryTag := tag, entryHeight := height, batches := s.batches + 1);
    assert EntriesOk(WithBatch(m, links), s');
  }

  function WithEntry<V>(m: Memory<V>, c: Ptr, b: int, key: int, value: V): Memory<V>
    requires 0 < m.free < |m.entryNext| == |m.entryKey| == |m.entryValue|
    requires 0 <= c < |m.blocks| && 0 <= b < |m.blocks[c]|
  {
    var e := m.free;
    m.(free := m.entryNext[e],
       entryNext := m.entryNext[e := m.blocks[c][b]],
       entryKey := m.entryKey[e := key],
       entryValue := m.entryValue[e := value],
       blocks := m.blocks[c := m.blocks[c][b := e]])
  }

  /** Moving entry e between the free list and block b of cluster c disturbs no other block. */
  lemma BlocksAfterMove<V>(hash: int -> int, m: Memory<V>, s: Shape, m': Memory<V>, s': Shape, c: Ptr, b: int, e: Ptr)
    requires ClustersOk(hash, m, s) && BlocksOk(m, s)
    requires 0 < c < |m.blocks| && 0 <= b < CLUSTER_BLOCKS && 0 < e < |s.entryTag|
    requires m'.clusterId == m.clusterId && s'.cluster == s.cluster
    requires 0 < |m.blocks| == |m'.blocks| && |m'.blocks[c]| == |m.blocks[c]| == CLUSTER_BLOCKS
    requires m'.blocks == m.blocks[c := m.blocks[c][b := m'.blocks[c][b]]]
    requires |s'.entryTag| == |s.entryTag| && s'.entryTag == s.entryTag[e := s'.entryTag[e]]
    requires s.entryTag[e].home == FREE || s.entryTag[e].home == BlockOf(m.clusterId[c], b)
    requires HeadOk(m'.blocks[c][b], BlockOf(m.clusterId[c], b), s'.entryTag, s'.entryHeight)
    requires forall g {:trigger Height(s'.entryHeight, g)} | g != FREE && g != BlockOf(m.clusterId[c], b) ::
               Height(s'.entryHeight, g) == Height(s.entryHeight, g)
    ensures BlocksOk(m', s')
  {
    forall d, x | 0 < d < |m'.blocks| && 0 <= x < |m'.blocks[d]|
      ensures HeadOk(m'.blocks[d][x], BlockOf(m'.clusterId[d], x), s'.entryTag, s'.entryHeight)
    {
      if d != c || x != b {
        OtherBlock(m.clusterId[d], x, m.clusterId[c], b);
        HeadUnmoved(m.blocks[d][x], BlockOf(m.clusterId[d], x), s.entryTag, s.entryHeight, e, s'.entryTag[e],
                    s'.entryHeight);
      }
    }
    forall id, x | id >= 0 && 0 <= x < CLUSTER_BLOCKS && id !in s.cluster
      ensures Height(s'.entryHeight, BlockOf(id, x)) == 0
    {
      OtherBlock(id, x, m.clusterId[c], b);
    }
  }

  /** Where an update of key writes: the block of the key, whose list the block heads. */
  lemma BlockIsThere<V>(hash: int -> int, m: Memory<V>, s: Shape, c: Ptr, key: nat)
    requires ClustersOk(hash, m, s) && EntriesOk(m, s) && BlocksOk(m, s)
    requires ClusterID(key) in s.cluster && c == s.cluster[ClusterID(key)]
    ensures 0 < c < |m.blocks| && |m.blocks[c]| == CLUSTER_BLOCKS
    ensures |m.blocks| == |m.clusterId| && BlockOf(m.clusterId[c], BlockID(key)) == BlockNumber(key)
    ensures BlockNumber(key) != FREE && HeadOk(m.blocks[c][BlockID(key)], BlockNumber(key), s.entryTag, s.entryHeight)
    ensures |m.entryNext| == |s.entryTag| == |m.entryKey| == |m.entryValue|
            && HeadOk(m.free, FREE, s.entryTag, s.entryHeight)
    ensures ListsOk(m.entryNext, s.entryTag, s.entryHeight)
  {
    assert m.clusterId[c] == ClusterID(key);
    assert HeadOk(m.blocks[c][BlockID(key)], BlockOf(m.clusterId[c], BlockID(key)), s.entryTag, s.entryHeight);
  }

  lemma InsertKeepsShape<V>(hash: int -> int, m: Memory<V>, s: Shape, contents: map<int, V>, c: Ptr, key: nat, value: V)
      returns (s': Shape)
    requires ClustersOk(hash, m, s) && EntriesOk(m, s) && BlocksOk(m, s) && ContentsOk(m, s, contents)
    requires m.free != NULL && key !in contents
    requires ClusterID(key) in s.cluster && c == s.cluster[ClusterID(key)]
    ensures var m' := WithEntry(m, c, BlockID(key), key, value);
            ClustersOk(hash, m', s') && EntriesOk(m', s') && BlocksOk(m', s')
              && ContentsOk(m', s', contents[key := value])
    ensures s'.batches == s.batches
  {
    hide ListsOk;
    hide BlocksOk;
    BlockIsThere(hash, m, s, c, key);
    var b := BlockID(key);
    var e := m.free;
    var next, tag, height :=
      MoveKeepsLists(m.entryNext, s.entryTag, s.entryHeight, e, NULL, BlockNumber(key), m.blocks[c][b]);
    s' := s.(index := s.index[key := e], entryTag := tag, entryHeight := height);
    var m' := WithEntry(m, c, b, key, value);
    assert EntriesOk(m', s');
    hide EntriesOk;
    BlocksAfterMove(hash, m, s, m', s', c, b, e);
  }

  /** A record with a predecessor is not the head of its list. */
  lemma PredIsAbove(next: seq<Ptr>, tag: seq<Tag>, height: map<int, int>, head: Ptr, pred: Ptr, e: Ptr)
    requires ListsOk(next, tag, height) && 0 < pred < |next| && next[pred] == e && e != NULL
    requires HeadOk(head, tag[pred].home, tag, height)
    ensures head != e
  {
    assert After(tag, pred, e);
  }

  lemma HeadUnmoved(p: Ptr, home: int, tag: seq<Tag>, height: map<int, int>, e: Ptr, t: Tag, height': map<int, int>)
    requires 0 < e < |tag| && HeadOk(p, home, tag, height) && (p != e || tag[e].home != home)
    requires Height(height', home) == Height(height, home)
    ensures HeadOk(p, home, tag[e := t], height')
  {
  }

  lemma OtherBlock(c: int, b: int, d: int, e: int)
    requires 0 <= b < CLUSTER_BLOCKS && 0 <= e < CLUSTER_BLOCKS && (c != d || b != e)
    ensures BlockOf(c, b) != BlockOf(d, e)
  {
  }

  function WithoutEntry<V>(m: Memory<V>, c: Ptr, b: int, e: Ptr, pred: Ptr): Memory<V>
    requires 0 < e < |m.entryNext| && 0 <= pred < |m.entryNext|
    requires 0 <= c < |m.blocks| && 0 <= b < |m.blocks[c]|
  {
    m.(free := e,
       entryNext := (if pred == NULL then m.entryNext else m.entryNext[pred := m.entryNext[e]])[e := m.free],
       blocks := if pred == NULL then m.blocks[c := m.blocks[c][b := m.entryNext[e]]] else m.blocks)
  }

  /** What is to be unlinked is on the list of its block, and its head only without pred. */
  lemma EntryIsThere<V>(hash: int -> int, m: Memory<V>, s: Shape, c: Ptr, key: nat, pred: Ptr)
    requires ClustersOk(hash, m, s) && EntriesOk(m, s) && BlocksOk(m, s)
    requires key in s.index && ClusterID(key) in s.cluster && c == s.cluster[ClusterID(key)]
    requires 0 < pred < |m.entryNext| ==> m.entryNext[pred] == s.index[key]
    ensures 0 < s.index[key] < |m.entryNext| && s.entryTag[s.index[key]].home == BlockNumber(key)
    ensures 0 < c < |m.blocks| && 0 <= BlockID(key) < |m.blocks[c]|
    ensures 0 < pred < |m.entryNext| ==> m.blocks[c][BlockID(key)] != s.index[key]
  {
    BlockIsThere(hash, m, s, c, key);
    assert s.entryTag[s.index[key]].home == BlockNumber(key);
    if 0 < pred < |m.entryNext| {
      PredIsAbove(m.entryNext, s.entryTag, s.entryHeight, m.blocks[c][BlockID(key)], pred, s.index[key]);
    }
  }

  lemma EntriesAfterRemove<V>(m: Memory<V>, s: Shape, m': Memory<V>, s': Shape, key: int)
    requires EntriesOk(m, s) && key in s.index && s'.index == s.index - {key} && s'.batches == s.batches
    requires m'.entryKey == m.entryKey && |m'.entryNext| == |m'.entryValue| == |m.entryNext|
    requires |s'.entryTag| == |s.entryTag| && 0 < s.index[key] < |s.entryTag|
    requires s'.entryTag == s.entryTag[s.index[key] := s'.entryTag[s.index[key]]]
             && s'.entryTag[s.index[key]].home == FREE
    requires ListsOk(m'.entryNext, s'.entryTag, s'.entryHeight) && HeadOk(m'.free, FREE, s'.entryTag, s'.entryHeight)
    ensures EntriesOk(m', s')
  {
    hide HeadOk;
  }

  lemma RemoveKeepsShape<V>(hash: int -> int, m: Memory<V>, s: Shape, contents: map<int, V>, c: Ptr, key: nat,
                            pred: Ptr)
      returns (s': Shape)
    requires ClustersOk(hash, m, s) && EntriesOk(m, s) && BlocksOk(m, s) && ContentsOk(m, s, contents)
    requires key in contents && ClusterID(key) in s.cluster && c == s.cluster[ClusterID(key)]
    requires if pred == NULL then m.blocks[c][BlockID(key)] == s.index[key]
             else 0 < pred < |m.entryNext| && m.entryNext[pred] == s.index[key]
    ensures var m' := WithoutEntry(m, c, BlockID(key), s.index[key], pred);
            ClustersOk(hash, m', s') && EntriesOk(m', s') && BlocksOk(m', s') && ContentsOk(m', s', contents - {key})
    ensures s'.batches == s.batches
  {
    hide ListsOk;
    hide BlocksOk;
    hide EntriesOk;
    BlockIsThere(hash, m, s, c, key);
    EntryIsThere(hash, m, s, c, key, pred);
    var b := BlockID(key);
    var e := s.index[key];
    var next, tag, height := MoveKeepsLists(m.entryNext, s.entryTag, s.entryHeight, e, pred, FREE, m.free);
    s' := s.(index := s.index - {key}, entryTag := tag, entryHeight := height);
    var m' := WithoutEntry(m, c, b, e, pred);
    EntriesAfterRemove(m, s, m', s', key);
    if pred != NULL {
      HeadUnmoved(m.blocks[c][b], BlockNumber(key), s.entryTag, s.entryHeight, e, tag[e], height);
      assert m.blocks[c][b := m.blocks[c][b]] == m.blocks[c];
    }
    BlocksAfterMove(hash, m, s, m', s', c, b, e);
  }

  lemma StoredKeyHasCluster<V>(m: Memory<V>, s: Shape, contents: map<int, V>, key: int)
    requires EntriesOk(m, s) && BlocksOk(m, s) && ContentsOk(m, s, contents) && key in contents
    ensures ClusterID(key) in s.cluster
  {
    assert BlockNumber(key) == BlockOf(ClusterID(key), BlockID(key));
    assert s.entryTag[s.index[key]].home == BlockNumber(key);
  }

  /** The records of a key's cluster, its entry, and a free entry, are there. */
  lemma RecordsAreThere<V>(hash: int -> int, m: Memory<V>, s: Shape, contents: map<int, V>, key: nat)
    requires ClustersOk(hash, m, s) && EntriesOk(m, s) && BlocksOk(m, s) && ContentsOk(m, s, contents)
    ensures |m.entryNext| == |m.entryKey| == |m.entryValue| && 0 <= m.free < |m.entryNext|
    ensures key in contents <==> key in s.index
    ensures key in contents ==>
              ClusterID(key) in s.cluster && 0 < s.index[key] < |m.entryNext|
                && m.entryValue[s.index[key]] == contents[key]
    ensures ClusterID(key) in s.cluster ==>
              var c := s.cluster[ClusterID(key)]; 0 < c < |m.blocks| && |m.blocks[c]| == CLUSTER_BLOCKS
  {
    if key in contents {
      StoredKeyHasCluster(m, s, contents, key);
    }
  }

  lemma KeysAreNatural<V>(m: Memory<V>, s: Shape, contents: map<int, V>)
    requires EntriesOk(m, s) && ContentsOk(m, s, contents)
    ensures forall k | k in contents :: k >= 0
  {
    forall k | k in contents
      ensures k >= 0
    {
      assert s.index[k] > 0;
    }
  }

  lemma NoKeysWithoutCluster<V>(m: Memory<V>, s: Shape, contents: map<int, V>, p: int, num: int)
    requires EntriesOk(m, s) && BlocksOk(m, s) && ContentsOk(m, s, contents)
    requires NoneAfter(contents, p, num) && ClusterID(num) !in s.cluster
    ensures NoneAfter(contents, p, num / 0x10_0000 * 0x10_0000 - 1)
  {
    forall k | k in contents && k <= p
      ensures BlockNumber(k) <= BlockNumber(num / 0x10_0000 * 0x10_0000 - 1)
    {
      StoredKeyHasCluster(m, s, contents, k);
      assert BlockNumber(k) <= BlockNumber(num);
    }
  }

  /** The free list and the stored keys together account for every entry of every batch. */
  lemma {:induction false} FreePlusStored<V>(m: Memory<V>, s: Shape, contents: map<int, V>)
    requires EntriesOk(m, s) && ContentsOk(m, s, contents)
    ensures |OnFreeList(s.entryTag)| + |contents| == 64 * s.batches
  {
    var free := OnFreeList(s.entryTag);
    var stored := Records(|s.entryTag|) - free;
    assert contents.Keys == s.index.Keys;
    forall p | p in stored
      ensures m.entryKey[p] in s.index && s.index[m.entryKey[p]] == p
    {
    }
    forall k | k in s.index.Keys
      ensures s.index[k] in stored && m.entryKey[s.index[k]] == k
    {
    }
    SameCount(s.index, s.index.Keys, stored);
  }

  ghost function OnFreeList(tag: seq<Tag>): set<int>
  {
    set p | p in Records(|tag|) && tag[p].home == FREE
  }

  ghost function Records(n: nat): (r: set<int>)
    ensures forall p {:trigger p in r} :: p in r <==> 0 < p < n
    ensures n > 0 ==> |r| == n - 1
  {
    if n <= 1 then {} else Records(n - 1) + {n - 1}
  }

  /** An injective map has as many keys as values. */
  lemma {:induction false} SameCount<K, W>(f: map<K, W>, keys: set<K>, values: set<W>)
    requires keys <= f.Keys
    requires forall k, l | k in keys && l in keys && f[k] == f[l] :: k == l
    requires forall k | k in keys :: f[k] in values
    requires forall v | v in values :: exists k :: k in keys && f[k] == v
    ensures |keys| == |values|
    decreases keys
  {
    if |keys| == 0 {
      assert forall v {:trigger v in values} :: v !in values;
      assert values == {};
    } else {
      var k :| k in keys;
      SameCount(f, keys - {k}, values - {f[k]});
    }
  }

  class AddressMap<V(0)> {
    const hash: int -> int             // HashInt; any hash into the table will do
    var mem: Memory<V>
    ghost var shape: Shape
    ghost var Contents: map<int, V>

    ghost predicate Valid()
      reads this
    {
      ClustersOk(hash, mem, shape) && EntriesOk(mem, shape) && BlocksOk(mem, shape) && ContentsOk(mem, shape, Contents)
    }

    constructor (hash: int -> int, hashSize: nat)
      requires forall x :: 0 <= hash(x) < hashSize
      ensures Valid() && Contents == map[]
    {
      var zero: V := *;
      this.hash := hash;
      mem := Memory(seq(hashSize, _ => NULL), NULL, [NULL], [0], [[]], [NULL], [0], [zero]);
      shape := Shape(map[], [Tag(0, 0)], map[], map[], [Tag(0, 0)], map[], 0);
      Contents := map[];
    }

    method FindCluster(address: int) returns (c: Ptr)
      requires ClustersOk(hash, mem, shape)
      ensures c == if ClusterID(address) in shape.cluster then shape.cluster[ClusterID(address)] else NULL
    {
      var id := ClusterID(address);
      c := mem.hashtable[hash(id)];
      if id in shape.cluster {
        HeadIsFirst(mem.clusterNext, shape.clusterTag, shape.clusterHeight, c, shape.cluster[id]);
      }
      while c != NULL
        invariant c != NULL ==> 0 < c < |shape.clusterTag| && shape.clusterTag[c].home == hash(id)
        invariant id in shape.cluster ==> c == shape.cluster[id] || After(shape.clusterTag, c, shape.cluster[id])
        decreases if c == NULL then 0 else shape.clusterTag[c].rank + 1
      {
        if mem.clusterId[c] == id {
          return;
        }
        if id in shape.cluster {
          NextStep(mem.clusterNext, shape.clusterTag, shape.clusterHeight, c, shape.cluster[id]);
        }
        c := mem.clusterNext[c];
      }
    }

    /** FindCluster with create set. */
    method FindOrCreateCluster(address: nat) returns (c: Ptr)
      requires Valid()
      modifies this
      ensures Valid() && Contents == old(Contents) && shape.batches == old(shape.batches)
      ensures ClusterID(address) in shape.cluster && c == shape.cluster[ClusterID(address)]
    {
      c := FindCluster(address);
      if c != NULL {
        return;
      }
      var id := ClusterID(address);
      c := |mem.clusterNext|;
      ghost var shape' := NewClusterKeepsShape(hash, mem, shape, Contents, id);
      mem := WithCluster(mem, hash(id), id);
      shape := shape';
    }

    /** Walks the list of a block to the entry of a key. */
    method FindInBlock(c: Ptr, key: nat) returns (e: Ptr, pred: Ptr)
      requires Valid() && ClusterID(key) in shape.cluster && c == shape.cluster[ClusterID(key)]
      ensures e == if key in Contents then shape.index[key] else NULL
      ensures e != NULL ==> 0 < e < |mem.entryNext|
      ensures e != NULL ==> if pred == NULL then mem.blocks[c][BlockID(key)] == e
                            else 0 < pred < |mem.entryNext| && mem.entryNext[pred] == e
    {
      pred := NULL;
      e := mem.blocks[c][BlockID(key)];
      if key in Contents {
        HeadIsFirst(mem.entryNext, shape.entryTag, shape.entryHeight, e, shape.index[key]);
      }
      while e != NULL
        invariant e != NULL ==> 0 < e < |mem.entryNext| && shape.entryTag[e].home == BlockNumber(key)
        invariant key in Contents ==> e == shape.index[key] || After(shape.entryTag, e, shape.index[key])
        invariant if pred == NULL then mem.blocks[c][BlockID(key)] == e
                  else 0 < pred < |mem.entryNext| && mem.entryNext[pred] == e
        decreases if e == NULL then 0 else shape.entryTag[e].rank + 1
      {
        if mem.entryKey[e] == key {
          return;
        }
        if key in Contents {
          NextStep(mem.entryNext, shape.entryTag, shape.entryHeight, e, shape.index[key]);
        }
        pred, e := e, mem.entryNext[e];
      }
    }

    method FindMutable(key: nat) returns (e: Ptr)
      requires Valid()
      ensures key in Contents <==> e != NULL
      ensures e != NULL ==> key in shape.index && e == shape.index[key]
      ensures e != NULL ==> 0 < e < |mem.entryValue| && mem.entryValue[e] == Contents[key]
    {
      var c := FindCluster(key);
      e := NULL;
      if c != NULL {
        var pred;
        e, pred := FindInBlock(c, key);
      } else if key in Contents {
        StoredKeyHasCluster(mem, shape, Contents, key);
      }
    }

    /** `*v = value` through the pointer that a lookup or an iteration gave out for key. */
    method Store(e: Ptr, v: V, ghost key: int)
      requires Valid() && key in Contents && key in shape.index && e == shape.index[key]
      modifies this
      ensures Valid() && shape == old(shape)
      ensures Contents == old(Contents)[key := v]
    {
      mem := mem.(entryValue := mem.entryValue[e := v]);
      Contents := Contents[key := v];
    }

    method Insert(key: nat, value: V)
      requires Valid()
      modifies this
      ensures Valid()
      ensures Contents == old(Contents)[key := value]
    {
      hide ClustersOk;
      hide EntriesOk;
      hide BlocksOk;
      hide ContentsOk;
      var c := FindOrCreateCluster(key);
      var e, pred := FindInBlock(c, key);
      RecordsAreThere(hash, mem, shape, Contents, key);
      if e != NULL {
        Store(e, value, key);
        return;
      }
      if mem.free == NULL {
        Refill();
      }
      RecordsAreThere(hash, mem, shape, Contents, key);
      ghost var shape' := InsertKeepsShape(hash, mem, shape, Contents, c, key, value);
      mem := WithEntry(mem, c, BlockID(key), key, value);
      shape, Contents := shape', Contents[key := value];
    }

    /** Allocates a batch of entries and puts them on the empty free list. */
    method Refill()
      requires Valid() && mem.free == NULL
      modifies this
      ensures Valid() && Contents == old(Contents) && mem.free != NULL
      ensures shape.cluster == old(shape.cluster) && shape.batches == old(shape.batches) + 1
    {
      var base := |mem.entryNext|;
      var links: seq<Ptr> := [];
      for i := 0 to 63
        invariant |links| == i
        invariant forall j {:trigger links[j]} | 0 <= j < i :: links[j] == base + j + 1
      {
        links := links + [base + i + 1];
      }
      links := links + [mem.free];
      ghost var shape' := BatchKeepsShape(hash, mem, shape, Contents, links);
      mem := WithBatch(mem, links);
      shape := shape';
    }

    method FindAndRemove(key: nat) returns (removed: Option<V>)
      requires Valid()
      modifies this
      ensures Valid() && shape.batches == old(shape.batches)
      ensures removed == if key in old(Contents) then Some(old(Contents)[key]) else None
      ensures Contents == old(Contents) - {key}
    {
      hide ClustersOk;
      hide EntriesOk;
      hide BlocksOk;
      hide ContentsOk;
      removed := None;
      RecordsAreThere(hash, mem, shape, Contents, key);
      var c := FindCluster(key);
      if c == NULL {
        return;
      }
      var e, pred := FindInBlock(c, key);
      if e != NULL {
        removed := Some(mem.entryValue[e]);
        ghost var shape' := RemoveKeepsShape(hash, mem, shape, Contents, c, key, pred);
        mem := WithoutEntry(mem, c, BlockID(key), e, pred);
        shape, Contents := shape', Contents - {key};
      }
    }

    method ScanBlock(size: V -> nat, address: nat, c: Ptr, num: nat)
      returns (found: Option<int>, smaller: bool, ghost w: int)
      requires Valid() && ClusterID(num) in shape.cluster && c == shape.cluster[ClusterID(num)]
      ensures found.Some?
              ==> Covers(Contents, size, found.value, address) && BlockNumber(found.value) == BlockNumber(num)
      ensures found.None?
              ==> forall k {:trigger BlockNumber(k)} | k in Contents && BlockNumber(k) == BlockNumber(num) ::
                !Covers(Contents, size, k, address)
      ensures found.None? && !smaller
              ==> forall k {:trigger BlockNumber(k)} | k in Contents && BlockNumber(k) == BlockNumber(num) ::
                k > address
      ensures smaller ==> w in Contents && w <= address && BlockNumber(w) == BlockNumber(num)
    {
      found, smaller, w := None, false, 0;
      var e := mem.blocks[c][BlockID(num)];
      forall k | k in Contents && BlockNumber(k) == BlockNumber(num)
        ensures e == shape.index[k] || After(shape.entryTag, e, shape.index[k])
      {
        HeadIsFirst(mem.entryNext, shape.entryTag, shape.entryHeight, e, shape.index[k]);
      }
      while e != NULL
        invariant e != NULL ==> 0 < e < |mem.entryNext| && shape.entryTag[e].home == BlockNumber(num)
        invariant smaller ==> w in Contents && w <= address && BlockNumber(w) == BlockNumber(num)
        invariant forall k {:trigger BlockNumber(k)} | k in Contents && BlockNumber(k) == BlockNumber(num) ::
                    || (e != NULL && (e == shape.index[k] || After(shape.entryTag, e, shape.index[k])))
                    || (!Covers(Contents, size, k, address) && (k <= address ==> smaller))
        decreases if e == NULL then 0 else shape.entryTag[e].rank + 1
      {
        var k := mem.entryKey[e];
        if k <= address {
          if k == address || address < k + size(mem.entryValue[e]) {
            found := Some(k);
            return;
          }
          smaller, w := true, k;
        }
        forall k | k in Contents && BlockNumber(k) == BlockNumber(num) && After(shape.entryTag, e, shape.index[k])
          ensures mem.entryNext[e] == shape.index[k] || After(shape.entryTag, mem.entryNext[e], shape.index[k])
        {
          NextStep(mem.entryNext, shape.entryTag, shape.entryHeight, e, shape.index[k]);
        }
        e := mem.entryNext[e];
      }
    }

    /** The blocks of one cluster, from that of num backwards. */
    method SearchCluster(size: V -> nat, maxSize: nat, address: nat, c: Ptr, start: nat)
      returns (done: bool, found: Option<int>, num: nat)
      requires Valid() && NonOverlapping(Contents, size)
      requires ClusterID(start) in shape.cluster && c == shape.cluster[ClusterID(start)]
      requires start == address || (start < address && start % 128 == 127 && address - start <= maxSize)
      requires NoneAfter(Contents, address, start)
      ensures done ==> found == Resolve(Contents, size, maxSize, address)
      ensures num <= start && ClusterID(num) == ClusterID(start)
      ensures !done ==> NoneAfter(Contents, address, num / 0x10_0000 * 0x10_0000 - 1)
    {
      num := start;
      while true
        invariant num <= start && ClusterID(num) == ClusterID(start)
        invariant num == address || (num < address && num % 128 == 127 && address - num <= maxSize)
        invariant NoneAfter(Contents, address, num)
        decreases num
      {
        var smaller;
        ghost var w;
        found, smaller, w := ScanBlock(size, address, c, num);
        if found.Some? {
          FoundIsResolved(Contents, size, maxSize, address, num, found.value);
          return true, found, num;
        }
        if smaller {
          SmallerStops(Contents, size, maxSize, address, num, w);
          return true, None, num;
        }
        if BlockID(num) == 0 {
          return false, None, num;
        }
        num := num / 128 * 128 - 1;
        if address - num > maxSize {
          TooFar(Contents, size, maxSize, address, num);
          return true, None, num;
        }
      }
    }

    method SearchClusterOf(size: V -> nat, maxSize: nat, address: nat, start: nat)
      returns (done: bool, found: Option<int>, num: nat)
      requires Valid() && NonOverlapping(Contents, size)
      requires start == address || (start < address && start % 128 == 127 && address - start <= maxSize)
      requires NoneAfter(Contents, address, start)
      ensures done ==> found == Resolve(Contents, size, maxSize, address)
      ensures num <= start && ClusterID(num) == ClusterID(start)
      ensures !done ==> NoneAfter(Contents, address, num / 0x10_0000 * 0x10_0000 - 1)
    {
      var c := FindCluster(start);
      if c != NULL {
        done, found, num := SearchCluster(size, maxSize, address, c, start);
      } else {
        NoKeysWithoutCluster(mem, shape, Contents, address, start);
        done, found, num := false, None, start;
      }
    }

    /** The entry of the range that holds address: the block of the address, then
        the blocks before it, until an entry at or before the address turns up or
        maxSize is exceeded. */
    method FindInside(size: V -> nat, maxSize: nat, address: nat) returns (found: Option<int>)
      requires Valid() && NonOverlapping(Contents, size)
      ensures found == Resolve(Contents, size, maxSize, address)
      ensures found.Some? ==> found.value in Contents && found.value >= 0
    {
      hide ClustersOk;
      hide EntriesOk;
      hide BlocksOk;
      hide ContentsOk;
      hide NoneAfter;
      hide NonOverlapping;
      hide Resolve;
      var num := address;
      NoneAfterAll(Contents, address);
      ResolvedIsStored(Contents, size, maxSize, address);
      KeysAreNatural(mem, shape, Contents);
      while true
        invariant num == address || (0 <= num < address && num % 128 == 127 && address - num <= maxSize)
        invariant NoneAfter(Contents, address, num)
        decreases num
      {
        var done;
        done, found, num := SearchClusterOf(size, maxSize, address, num);
        if done {
          return;
        }
        if num < 0x10_0000 {
          assert num / 0x10_0000 * 0x10_0000 - 1 == -1;
          NothingLeft(Contents, size, maxSize, address);
          return None;
        }
        num := num / 0x10_0000 * 0x10_0000 - 1;
        if address - num > maxSize {
          TooFar(Contents, size, maxSize, address, num);
          return None;
        }
      }
    }

    // ---------- Iteration: hash chains, clusters, blocks, entries ----------

    method IterateBlock(c: Ptr, b: int) returns (visited: seq<int>)
      requires Valid() && 0 < c < |mem.blocks| && 0 <= b < CLUSTER_BLOCKS
      ensures forall k {:trigger k in visited} ::
                k in visited <==> k in Contents && BlockNumber(k) == BlockOf(mem.clusterId[c], b)
      ensures Distinct(visited)
    {
      visited := [];
      ghost var home := BlockOf(mem.clusterId[c], b);
      var e := mem.blocks[c][b];
      forall k | k in Contents && BlockNumber(k) == home
        ensures e == shape.index[k] || After(shape.entryTag, e, shape.index[k])
      {
        HeadIsFirst(mem.entryNext, shape.entryTag, shape.entryHeight, e, shape.index[k]);
      }
      while e != NULL
        invariant e != NULL ==> 0 < e < |mem.entryNext| && shape.entryTag[e].home == home
        invariant Distinct(visited)
        invariant forall k {:trigger k in visited} :: k in visited ==> k in Contents && BlockNumber(k) == home
        invariant forall k {:trigger k in visited} | k in Contents && BlockNumber(k) == home ::
                    k in visited <==> !(e != NULL && (e == shape.index[k] || After(shape.entryTag, e, shape.index[k])))
        decreases if e == NULL then 0 else shape.entryTag[e].rank + 1
      {
        forall k | k in Contents && BlockNumber(k) == home && After(shape.entryTag, e, shape.index[k])
          ensures mem.entryNext[e] == shape.index[k] || After(shape.entryTag, mem.entryNext[e], shape.index[k])
        {
          NextStep(mem.entryNext, shape.entryTag, shape.entryHeight, e, shape.index[k]);
        }
        assert mem.entryNext[e] != NULL ==> After(shape.entryTag, e, mem.entryNext[e]);
        DistinctConcat(visited, [mem.entryKey[e]]);
        visited := visited + [mem.entryKey[e]];
        e := mem.entryNext[e];
      }
    }

    method IterateCluster(c: Ptr) returns (visited: seq<int>)
      requires Valid() && 0 < c < |mem.blocks|
      ensures forall k {:trigger k in visited} :: k in visited <==> k in Contents && ClusterID(k) == mem.clusterId[c]
      ensures Distinct(visited)
    {
      visited := [];
      KeysAreNatural(mem, shape, Contents);
      for b := 0 to CLUSTER_BLOCKS
        invariant Distinct(visited)
        invariant forall k {:trigger k in visited} ::
                    k in visited <==> k in Contents && ClusterID(k) == mem.clusterId[c] && BlockID(k) < b
      {
        var more := IterateBlock(c, b);
        forall k | k in Contents
          ensures BlockNumber(k) == BlockOf(mem.clusterId[c], b)
                  <==> ClusterID(k) == mem.clusterId[c] && BlockID(k) == b
        {
          if ClusterID(k) != mem.clusterId[c] || BlockID(k) != b {
            OtherBlock(ClusterID(k), BlockID(k), mem.clusterId[c], b);
          }
        }
        DistinctConcat(visited, more);
        visited := visited + more;
      }
    }

    method IterateChain(h: int) returns (visited: seq<int>)
      requires Valid() && 0 <= h < |mem.hashtable|
      ensures forall k {:trigger k in visited} :: k in visited <==> k in Contents && hash(ClusterID(k)) == h
      ensures Distinct(visited)
    {
      visited := [];
      var c := mem.hashtable[h];
      forall k | k in Contents
        ensures ClusterID(k) in shape.cluster
        ensures hash(ClusterID(k)) == h ==>
                  c == shape.cluster[ClusterID(k)] || After(shape.clusterTag, c, shape.cluster[ClusterID(k)])
      {
        StoredKeyHasCluster(mem, shape, Contents, k);
        if hash(ClusterID(k)) == h {
          HeadIsFirst(mem.clusterNext, shape.clusterTag, shape.clusterHeight, c, shape.cluster[ClusterID(k)]);
        }
      }
      while c != NULL
        invariant c != NULL ==> 0 < c < |mem.clusterId| && shape.clusterTag[c].home == h
        invariant Distinct(visited)
        invariant forall k {:trigger k in visited} :: k in visited ==> k in Contents && hash(ClusterID(k)) == h
        invariant forall k {:trigger k in visited} | k in Contents && hash(ClusterID(k)) == h ::
                    k in visited <==> !(c != NULL && (c == shape.cluster[ClusterID(k)]
                                                      || After(shape.clusterTag, c, shape.cluster[ClusterID(k)])))
        decreases if c == NULL then 0 else shape.clusterTag[c].rank + 1
      {
        var more := IterateCluster(c);
        forall k | k in Contents && hash(ClusterID(k)) == h && After(shape.clusterTag, c, shape.cluster[ClusterID(k)])
          ensures mem.clusterNext[c] == shape.cluster[ClusterID(k)]
                  || After(shape.clusterTag, mem.clusterNext[c], shape.cluster[ClusterID(k)])
        {
          NextStep(mem.clusterNext, shape.clusterTag, shape.clusterHeight, c, shape.cluster[ClusterID(k)]);
        }
        assert mem.clusterNext[c] != NULL ==> After(shape.clusterTag, c, mem.clusterNext[c]);
        DistinctConcat(visited, more);
        visited := visited + more;
        c := mem.clusterNext[c];
      }
    }

    /** The keys in the order in which the callback sees them: each stored key once. */
    method Iterate() returns (visited: seq<int>)
      requires Valid()
      ensures forall k {:trigger k in visited} :: k in visited <==> k in Contents
      ensures forall k | k in Contents :: k >= 0
      ensures Distinct(visited)
    {
      visited := [];
      KeysAreNatural(mem, shape, Contents);
      for h := 0 to |mem.hashtable|
        invariant Distinct(visited)
        invariant forall k {:trigger k in visited} :: k in visited <==> k in Contents && hash(ClusterID(k)) < h
      {
        var more := IterateChain(h);
        DistinctConcat(visited, more);
        visited := visited + more;
      }
    }
  }
}
