/** The numbered files of a log target: the current file is number 0, older ones are 1, 2, ...
    A directory is a sequence with one place for each name there is; no number past its end
    has a name. */
module FileRotation {

  datatype File = Missing | File(text: string)

  type Disk = seq<File>

  function Min(a: int, b: int): int
  {
    if a <= b then a else b
  }

  /** Fails, and changes nothing, without a file to move or a name to give it. */
  function Rename(d: Disk, i: int, j: int): (r: Disk)
    ensures |r| == |d|
  {
    if 0 <= i < |d| && 0 <= j < |d| && d[i].File? then d[j := d[i]][i := Missing] else d
  }

  function Unlink(d: Disk, i: int): (r: Disk)
    ensures |r| == |d|
  {
    if 0 <= i < |d| then d[i := Missing] else d
  }

  // ---------- One rotation ----------

  /** Whether the first of `n` files is to be removed. Zero stands for no limit. */
  predicate Surplus(n: int, maxFiles: int)
  {
    maxFiles != 0 && n + 1 > maxFiles
  }

  /** The directory after the files listed have been removed or moved up, in that order. */
  function Moved(d: Disk, list: seq<int>, maxFiles: int): (r: Disk)
    ensures |r| == |d|
    decreases |list|
  {
    if list == [] then d
    else Moved(
           if Surplus(|list|, maxFiles) then Unlink(d, list[0]) else Rename(d, list[0], list[0] + 1),
           list[1..], maxFiles)
  }

  /** The list after that. It does not say whether a file could be moved. */
  function Renumbered(list: seq<int>, maxFiles: int): seq<int>
  {
    if list == [] then []
    else (if Surplus(|list|, maxFiles) then [] else [list[0] + 1]) + Renumbered(list[1..], maxFiles)
  }

  predicate Positive(list: seq<int>)
  {
    forall i :: 0 <= i < |list| ==> list[i] > 0
  }

  /** What one turn of the loop does. */
  lemma MoveStep(d: Disk, list: seq<int>, maxFiles: int)
    requires list != [] && Positive(list)
    ensures Positive(list[1..])
    ensures Moved(d, list, maxFiles)
            == Moved(if Surplus(|list|, maxFiles) then Unlink(d, list[0]) else Rename(d, list[0], list[0] + 1),
                     list[1..], maxFiles)
    ensures Renumbered(list, maxFiles)
            == (if Surplus(|list|, maxFiles) then [] else [list[0] + 1]) + Renumbered(list[1..], maxFiles)
  {
  }

  lemma MovedNone(d: Disk, maxFiles: int)
    ensures Moved(d, [], maxFiles) == d && Renumbered([], maxFiles) == []
  {
  }

  predicate HasBase(d: Disk)
  {
    |d| > 1 && d[0].File?
  }

  lemma {:induction false} MovedKeepsBase(d: Disk, list: seq<int>, maxFiles: int)
    requires Positive(list)
    ensures |d| > 0 ==> Moved(d, list, maxFiles)[0] == d[0]
    decreases |list|
  {
    if list != [] {
      var e := if Surplus(|list|, maxFiles) then Unlink(d, list[0]) else Rename(d, list[0], list[0] + 1);
      MovedKeepsBase(e, list[1..], maxFiles);
    }
  }

  function Rotation(d: Disk, list: seq<int>, maxFiles: int): (r: Disk)
    ensures |r| == |d|
  {
    Rename(Moved(d, list, maxFiles), 0, 1)
  }

  function RotatedList(d: Disk, list: seq<int>, maxFiles: int): seq<int>
  {
    Renumbered(list, maxFiles) + if HasBase(d) then [1] else []
  }

  /** k, ..., 1. */
  function Down(k: nat): (r: seq<int>)
    ensures |r| == k
  {
    if k == 0 then [] else [k] + Down(k - 1)
  }

  /** How many of `k` files are moved up. */
  function Keep(k: nat, maxFiles: nat): nat
  {
    if maxFiles == 0 then k else Min(k, maxFiles - 1)
  }

  /** How many files there are after a rotation. */
  function Count(k: nat, maxFiles: nat): nat
  {
    Keep(k, maxFiles) + 1
  }

  /** The files 1, ..., k are there. */
  ghost predicate Contiguous(d: Disk, k: nat)
  {
    k < |d| && forall i {:trigger d[i]} | 1 <= i <= k :: d[i].File?
  }

  lemma {:induction false} MovedIs(d: Disk, k: nat, maxFiles: nat)
    requires k + 1 < |d| || (k < |d| && 1 <= maxFiles < |d|)
    requires Contiguous(d, k)
    ensures var r := Moved(d, Down(k), maxFiles); var m := Keep(k, maxFiles);
            && (forall i {:trigger r[i]} | 2 <= i <= m + 1 :: r[i] == d[i - 1])
            && (forall i {:trigger r[i]} | m + 1 < i <= k || (i == 1 && 1 <= k) :: r[i] == Missing)
            && (forall i {:trigger r[i]} | m + 1 < i < |d| && k < i :: r[i] == d[i])
            && r[0] == d[0]
    decreases k
  {
    if k > 0 {
      assert Down(k)[1..] == Down(k - 1);
      var e := if Surplus(k, maxFiles) then Unlink(d, k) else Rename(d, k, k + 1);
      MovedIs(e, k - 1, maxFiles);
    }
  }

  lemma DownStep(k: nat, maxFiles: nat)
    ensures Down(k + 1) == [k + 1] + Down(k)
    ensures Renumbered(Down(k + 1), maxFiles)
            == (if Surplus(k + 1, maxFiles) then [] else [k + 2]) + Renumbered(Down(k), maxFiles)
  {
    assert Down(k + 1)[1..] == Down(k);
  }

  lemma {:induction false} RenumberedIs(k: nat, maxFiles: nat)
    ensures Renumbered(Down(k), maxFiles) + [1] == Down(Count(k, maxFiles))
  {
    hide Down;
    hide Renumbered;
    if k == 0 {
      RenumberedNone(maxFiles);
    } else {
      RenumberedIs(k - 1, maxFiles);
      DownStep(k - 1, maxFiles);
      DownStep(k, maxFiles);
      if Surplus(k, maxFiles) {
        assert [] + Renumbered(Down(k - 1), maxFiles) == Renumbered(Down(k - 1), maxFiles);
      } else {
        assert Renumbered(Down(k), maxFiles) + [1] == [k + 1] + (Renumbered(Down(k - 1), maxFiles) + [1]);
      }
    }
  }

  lemma RenumberedNone(maxFiles: nat)
    ensures Renumbered(Down(0), maxFiles) + [1] == Down(Count(0, maxFiles))
  {
  }

  lemma RotationAt(d: Disk, k: nat, maxFiles: nat)
    requires HasBase(d) && Contiguous(d, k) && Count(k, maxFiles) < |d|
    ensures var r := Rotation(d, Down(k), maxFiles); var n := Count(k, maxFiles);
            && (forall i {:trigger r[i]} | 1 <= i <= n :: r[i] == d[i - 1])
            && (forall i {:trigger r[i]} | n < i <= k || i == 0 :: r[i] == Missing)
            && (forall i {:trigger r[i]} | n < i < |d| && k < i :: r[i] == d[i])
  {
    hide Moved;
    hide Down;
    MovedIs(d, k, maxFiles);
  }

  /** One rotation moves every file up by one, the current one to 1, drops those that would
      get a number above the limit, touches nothing above, and lists what there is. */
  lemma RotationIs(d: Disk, k: nat, maxFiles: nat)
    requires HasBase(d) && Contiguous(d, k) && Count(k, maxFiles) < |d|
    ensures var r := Rotation(d, Down(k), maxFiles); var n := Count(k, maxFiles);
            && RotatedList(d, Down(k), maxFiles) == Down(n)
            && Contiguous(r, n)
            && r[1..n + 1] == d[..n]
            && r[0] == Missing
            && (forall i {:trigger r[i]} | n < i <= k :: r[i] == Missing)
            && (forall i {:trigger r[i]} | n < i < |d| && k < i :: r[i] == d[i])
  {
    hide Rotation;
    hide Renumbered;
    hide Down;
    RotationAt(d, k, maxFiles);
    RenumberedIs(k, maxFiles);
    var r := Rotation(d, Down(k), maxFiles);
    var n := Count(k, maxFiles);
    forall i | 1 <= i <= n ensures r[i].File? {
      assert r[i] == d[i - 1];
    }
    assert r[1..n + 1] == d[..n];
  }

  /** Without a current file, no file gets number 1 and the list is no longer contiguous. */
  lemma ContiguousIffBase(d: Disk, k: nat, maxFiles: nat)
    requires |d| > 1
    ensures RotatedList(d, Down(k), maxFiles) == Down(Count(k, maxFiles)) <==> HasBase(d)
  {
    RenumberedIs(k, maxFiles);
    if !HasBase(d) {
      assert |RotatedList(d, Down(k), maxFiles)| < Count(k, maxFiles);
    }
  }

  // ---------- Any number of rotations ----------

  function CountAfter(k: nat, maxFiles: nat, j: nat): nat
  {
    if j == 0 then k else Count(CountAfter(k, maxFiles, j - 1), maxFiles)
  }

  lemma {:induction false} CountAfterIs(k: nat, maxFiles: nat, j: nat)
    ensures j > 0 ==> CountAfter(k, maxFiles, j) == if maxFiles == 0 then k + j else Min(k + j, maxFiles)
  {
    if j > 0 {
      CountAfterIs(k, maxFiles, j - 1);
    }
  }

  /** Every file moved gets a name in every rotation of every run exactly when there is a
      limit and it is below the number of names. */
  lemma NamedForeverIff(k: nat, maxFiles: nat, names: nat)
    requires k < names
    ensures (forall j: nat :: j > 0 ==> CountAfter(k, maxFiles, j) < names) <==> 1 <= maxFiles < names
  {
    forall j: nat | j > 0 ensures 1 <= maxFiles < names ==> CountAfter(k, maxFiles, j) < names {
      CountAfterIs(k, maxFiles, j);
    }
    CountAfterIs(k, maxFiles, names - k);
  }

  /** A list with room for `names` entries never overflows exactly when there is a limit
      and it does not exceed the number of names. */
  lemma NeverOverflowsIff(k: nat, maxFiles: nat, names: nat)
    requires k < names
    ensures (forall j: nat :: j > 0 ==> CountAfter(k, maxFiles, j) <= names) <==> 1 <= maxFiles <= names
  {
    forall j: nat | j > 0 ensures 1 <= maxFiles <= names ==> CountAfter(k, maxFiles, j) <= names {
      CountAfterIs(k, maxFiles, j);
    }
    CountAfterIs(k, maxFiles, names + 1 - k);
  }

  /** The directory after a rotation for each of `logs`, each being the current file then. */
  function RunDisk(d: Disk, k: nat, maxFiles: nat, logs: seq<string>): (r: Disk)
    ensures |r| == |d|
  {
    if logs == [] then d
    else
      var n := |logs| - 1;
      var e := RunDisk(d, k, maxFiles, logs[..n]);
      if e == [] then [] else Rotation(e[0 := File(logs[n])], Down(CountAfter(k, maxFiles, n)), maxFiles)
  }

  /** The newest first. */
  function Newest(logs: seq<string>): (r: seq<File>)
    ensures |r| == |logs|
  {
    if logs == [] then [] else [File(logs[|logs| - 1])] + Newest(logs[..|logs| - 1])
  }

  /** However often files are rotated, those numbered 1, 2, ... are the newest ones in order:
      as many as the limit says, beside the current one. */
  lemma {:induction false} NewestAreKept(d: Disk, k: nat, maxFiles: nat, logs: seq<string>)
    requires Contiguous(d, k) && CountAfter(k, maxFiles, |logs|) < |d|
    ensures var n := CountAfter(k, maxFiles, |logs|);
            var r := RunDisk(d, k, maxFiles, logs);
            n <= k + |logs| && Contiguous(r, n) && r[1..n + 1] == (Newest(logs) + d[1..k + 1])[..n]
    decreases |logs|
  {
    hide Rotation;
    hide Down;
    hide Newest;
    hide CountAfter;
    hide RunDisk;
    RunStep(d, k, maxFiles, logs);
    CountAfterIs(k, maxFiles, |logs|);
    if logs != [] {
      var j := |logs| - 1;
      CountAfterIs(k, maxFiles, j);
      NewestAreKept(d, k, maxFiles, logs[..j]);
      var c := CountAfter(k, maxFiles, j);
      var e := RunDisk(d, k, maxFiles, logs[..j]);
      NewestOnTop(e, c, maxFiles, File(logs[j]), Newest(logs[..j]) + d[1..k + 1]);
      assert Newest(logs) + d[1..k + 1] == [File(logs[j])] + (Newest(logs[..j]) + d[1..k + 1]);
    } else {
      assert Newest(logs) + d[1..k + 1] == d[1..k + 1];
    }
  }

  lemma RunStep(d: Disk, k: nat, maxFiles: nat, logs: seq<string>)
    requires |d| > 0
    ensures Newest([]) == [] && CountAfter(k, maxFiles, 0) == k && RunDisk(d, k, maxFiles, []) == d
    ensures var j := |logs| - 1; logs != [] ==>
              && Newest(logs) == [File(logs[j])] + Newest(logs[..j])
              && CountAfter(k, maxFiles, j + 1) == Count(CountAfter(k, maxFiles, j), maxFiles)
              && RunDisk(d, k, maxFiles, logs)
                 == Rotation(RunDisk(d, k, maxFiles, logs[..j])[0 := File(logs[j])], Down(CountAfter(k, maxFiles, j)),
                             maxFiles)
  {
  }

  /** A rotation pushes the current file onto those kept and cuts off what is too old. */
  lemma NewestOnTop(e: Disk, c: nat, maxFiles: nat, log: File, older: seq<File>)
    requires Contiguous(e, c) && Count(c, maxFiles) < |e| && log.File?
    requires c <= |older| && e[1..c + 1] == older[..c]
    ensures var r := Rotation(e[0 := log], Down(c), maxFiles); var n := Count(c, maxFiles);
            && n <= |older| + 1
            && Contiguous(r, n)
            && r[1..n + 1] == ([log] + older)[..n]
  {
    hide Rotation;
    hide Down;
    var now := e[0 := log];
    assert Contiguous(now, c);
    RotationIs(now, c, maxFiles);
    var n := Count(c, maxFiles);
    forall i | 0 < i < n ensures now[i] == older[i - 1] {
      assert e[i] == e[1..c + 1][i - 1] == older[..c][i - 1];
    }
    assert now[..n] == ([log] + older)[..n];
  }

  // ---------- Files that a gap hides ----------

  /** The list found ends at the first number without a file; a file with a higher number
      than that is hidden. Below the limit, it is never touched. */
  lemma {:induction false} HiddenIsSafe(d: Disk, k: nat, maxFiles: nat, logs: seq<string>, h: nat)
    requires Contiguous(d, k) && k < h < |d| && 1 <= maxFiles < h
    ensures RunDisk(d, k, maxFiles, logs)[h] == d[h]
    decreases |logs|
  {
    hide Rotation;
    hide Down;
    hide CountAfter;
    hide RunDisk;
    RunStep(d, k, maxFiles, logs);
    if logs != [] {
      var j := |logs| - 1;
      HiddenIsSafe(d, k, maxFiles, logs[..j], h);
      CountAfterIs(k, maxFiles, j);
      CountAfterIs(k, maxFiles, j + 1);
      NewestAreKept(d, k, maxFiles, logs[..j]);
      var e := RunDisk(d, k, maxFiles, logs[..j])[0 := File(logs[j])];
      assert Contiguous(e, CountAfter(k, maxFiles, j));
      RotationAt(e, CountAfter(k, maxFiles, j), maxFiles);
    }
  }

  /** Without a limit, or at or above it, the rotations in time replace it by what was the
      oldest file of the list. */
  lemma HiddenIsReplaced(d: Disk, k: nat, maxFiles: nat, logs: seq<string>, h: nat)
    requires Contiguous(d, k) && k < h < |d| && (maxFiles == 0 || maxFiles >= h) && |logs| == h - k
    ensures RunDisk(d, k, maxFiles, logs)[h] == if k == 0 then File(logs[0]) else d[k]
  {
    hide RunDisk;
    hide Contiguous;
    hide CountAfter;
    CountAfterIs(k, maxFiles, h - k);
    NewestAreKept(d, k, maxFiles, logs);
    var r := RunDisk(d, k, maxFiles, logs);
    var all := Newest(logs) + d[1..k + 1];
    assert r[h] == r[1..h + 1][h - 1];
    assert all[h - 1] == all[..h][h - 1];
    if k == 0 {
      OldestIsLast(logs);
      assert all[h - 1] == Newest(logs)[|logs| - 1];
    } else {
      assert all[h - 1] == d[1..k + 1][k - 1];
    }
  }

  lemma {:induction false} OldestIsLast(logs: seq<string>)
    requires logs != []
    ensures Newest(logs)[|logs| - 1] == File(logs[0])
  {
    if |logs| > 1 {
      OldestIsLast(logs[..|logs| - 1]);
    }
  }

  /** So a hidden file outlives every run exactly when the limit is below its number. */
  lemma HiddenForeverIff(d: Disk, k: nat, maxFiles: nat, h: nat)
    requires Contiguous(d, k) && k < h < |d| && (k > 0 ==> d[h] != d[k])
    ensures (forall logs: seq<string> :: RunDisk(d, k, maxFiles, logs)[h] == d[h]) <==> 1 <= maxFiles < h
  {
    hide RunDisk;
    hide Contiguous;
    if 1 <= maxFiles < h {
      forall logs: seq<string>
        ensures RunDisk(d, k, maxFiles, logs)[h] == d[h]
      {
        HiddenIsSafe(d, k, maxFiles, logs, h);
      }
    } else {
      var text := if d[h] == File("") then "other" else "";
      var logs := seq(h - k, _ => text);
      HiddenIsReplaced(d, k, maxFiles, logs, h);
    }
  }

  // ---------- The target ----------

  function Size(f: File): nat
  {
    match f
    case Missing => 0
    case File(text) => |text|
  }

  function SumSizes(d: Disk): nat
  {
    if d == [] then 0 else SumSizes(d[..|d| - 1]) + Size(d[|d| - 1])
  }

  class FileTarget {
    const maxFiles: nat
    const maxFileSize: nat
    const maxTotalSize: nat
    var disk: Disk
    var rotatedFiles: seq<int>
    var currentSize: nat
    var allFilesSize: nat

    ghost predicate Valid()
      reads this
    {
      |disk| > 1 && |rotatedFiles| <= |disk| && Positive(rotatedFiles)
    }

    constructor (disk: Disk, maxFiles: nat, maxFileSize: nat, maxTotalSize: nat)
      requires |disk| > 1
      ensures Valid() && this.disk == disk && rotatedFiles == []
      ensures this.maxFiles == maxFiles && this.maxFileSize == maxFileSize && this.maxTotalSize == maxTotalSize
    {
      this.disk, rotatedFiles, currentSize, allFilesSize := disk, [], 0, 0;
      this.maxFiles, this.maxFileSize, this.maxTotalSize := maxFiles, maxFileSize, maxTotalSize;
    }

    /** Lists the files there are. Zero switches off the limit on the current file but not
        the one on all files. */
    method CheckFiles() returns (needsRotation: bool)
      requires Valid()
      modifies this`rotatedFiles, this`currentSize, this`allFilesSize
      ensures Valid() && Contiguous(disk, |rotatedFiles|) && rotatedFiles == Down(|rotatedFiles|)
      ensures |rotatedFiles| + 1 == |disk| || disk[|rotatedFiles| + 1] == Missing
      ensures allFilesSize == SumSizes(disk[..|rotatedFiles| + 1])
      ensures currentSize == if disk[0].File? then |disk[0].text| else old(currentSize)
      ensures needsRotation <==>
              || 0 < maxFileSize < Size(disk[0])
              || allFilesSize > maxTotalSize
    {
      hide Up;
      hide Down;
      hide Reversed;
      hide SumSizes;
      allFilesSize, needsRotation, rotatedFiles := 0, false, [];
      SumStep(disk, 0);
      UpStep(0);
      if disk[0].File? {
        var size := |disk[0].text|;
        needsRotation := maxFileSize != 0 && maxFileSize < size;
        allFilesSize := allFilesSize + size;
        currentSize := size;
      }
      var n := 1;
      while n < |disk| && disk[n].File?
        invariant 1 <= n <= |disk| && Contiguous(disk, n - 1) && rotatedFiles == Up(n - 1)
        invariant allFilesSize == SumSizes(disk[..n])
        modifies this`rotatedFiles, this`allFilesSize
      {
        SumStep(disk, n);
        UpStep(n);
        rotatedFiles := rotatedFiles + [n];
        allFilesSize := allFilesSize + |disk[n].text|;
        n := n + 1;
      }
      UpDown(n - 1);
      rotatedFiles := Reversed(rotatedFiles);
      DownIsPositive(n - 1);
      needsRotation := needsRotation || allFilesSize > maxTotalSize;
    }

    /** Does not return when the list of the files moved is full, for no one else empties
        it. */
    method RotateFiles() returns (finished: bool)
      requires Valid()
      modifies this`disk, this`rotatedFiles, this`currentSize
      ensures Valid() && disk == Rotation(old(disk), old(rotatedFiles), maxFiles)
      ensures finished == (|RotatedList(old(disk), old(rotatedFiles), maxFiles)| <= |disk|)
      ensures finished ==> rotatedFiles == RotatedList(old(disk), old(rotatedFiles), maxFiles) && currentSize == 0
    {
      hide Moved;
      hide Renumbered;
      hide Rename;
      hide Unlink;
      hide Surplus;
      hide Positive;
      var temp: seq<int> := [];
      var n := |rotatedFiles|;
      ghost var list := rotatedFiles;
      MovedKeepsBase(disk, rotatedFiles, maxFiles);
      RenumberedFits(rotatedFiles, maxFiles);
      while rotatedFiles != []
        invariant n == |rotatedFiles| <= |disk| == |old(disk)| && Valid()
        invariant Moved(disk, rotatedFiles, maxFiles) == Moved(old(disk), list, maxFiles)
        invariant temp + Renumbered(rotatedFiles, maxFiles) == Renumbered(list, maxFiles)
        decreases |rotatedFiles|
        modifies this`disk, this`rotatedFiles
      {
        MoveStep(disk, rotatedFiles, maxFiles);
        var f := rotatedFiles[0];
        if Surplus(n, maxFiles) {
          disk := Unlink(disk, f);
        } else {
          disk := Rename(disk, f, f + 1);
          temp := temp + [f + 1];
        }
        rotatedFiles := rotatedFiles[1..];
        n := n - 1;
      }
      MovedNone(disk, maxFiles);
      assert temp == Renumbered(list, maxFiles);
      var moved := disk[0].File?;
      disk := Rename(disk, 0, 1);
      if moved {
        if |temp| >= |disk| {
          return false;
        }
        temp := temp + [1];
      }
      rotatedFiles, currentSize := temp, 0;
      return true;
    }
  }

  function Up(k: nat): (r: seq<int>)
    ensures |r| == k
  {
    if k == 0 then [] else Up(k - 1) + [k]
  }

  function Reversed(s: seq<int>): (r: seq<int>)
    ensures |r| == |s|
  {
    if s == [] then [] else [s[|s| - 1]] + Reversed(s[..|s| - 1])
  }

  lemma UpStep(k: nat)
    ensures Up(0) == [] && (k > 0 ==> Up(k) == Up(k - 1) + [k])
  {
  }

  lemma SumStep(d: Disk, n: nat)
    requires n < |d|
    ensures SumSizes(d[..n + 1]) == SumSizes(d[..n]) + Size(d[n]) && SumSizes(d[..0]) == 0
  {
    assert d[..n + 1][..n] == d[..n];
  }

  lemma {:induction false} UpDown(k: nat)
    ensures Reversed(Up(k)) == Down(k)
  {
    if k > 0 {
      UpDown(k - 1);
      assert Up(k)[..k - 1] == Up(k - 1);
    }
  }

  lemma {:induction false} DownIsPositive(k: nat)
    ensures Positive(Down(k))
  {
    if k > 0 {
      DownIsPositive(k - 1);
    }
  }

  lemma {:induction false} RenumberedFits(list: seq<int>, maxFiles: int)
    requires Positive(list)
    ensures |Renumbered(list, maxFiles)| <= |list|
    ensures Positive(Renumbered(list, maxFiles)) && Positive(Renumbered(list, maxFiles) + [1])
  {
    if list != [] {
      RenumberedFits(list[1..], maxFiles);
    }
  }
}
