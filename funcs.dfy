/** screenio/funcs.py: the job functions a profile names through `FUNCS_MAP`.
    The two Pillow recorders repeat those of screenio/record.py (frames are
    saved as JPEG here, and the video loop has no stop flag); the moviepy
    converter hands a directory's files, sorted by name, to the clip. */
module Funcs {
  import opened Wrappers
  import opened Text
  import opened Frames
  import Record

  /** `record_frames_pil`: like the one in screenio/record.py, but every
      frame is encoded as JPEG whatever its `.png` name says. */
  method RecordFramesPil<Img(==)>(dir: Directory<Img>, first: Img, grabs: seq<Img>, difference: bool)
    returns (counter: nat)
    modifies dir
    ensures counter == |old(dir.files)| + |Kept(first, grabs, difference)|
    ensures dir.files == Saves(old(dir.files), |old(dir.files)|, Kept(first, grabs, difference), JPEG)
  {
    counter := SaveFrames(dir, first, grabs, difference, JPEG);
  }

  /** `record_video_pil`: with no stop flag, the loop runs until the
      interrupt, so every grab taken is tested. */
  method RecordVideoPil<Img(==)>(output: string, resolve: string -> string, first: Img, grabs: seq<Img>,
                                 difference: bool)
    returns (out: VideoWriter<Img>)
    ensures fresh(out) && out.path == resolve(output) && out.released
    ensures out.frames == Kept(first, grabs, difference)
  {
    var n;
    out, n := Record.RecordVideoPil(output, resolve, first, grabs, difference, None);
    assert grabs[..n] == grabs;
  }

  // ---------------------------------------------------------------------
  // Frames to video

  /** Ascending in Python's string order. */
  predicate Sorted(s: seq<string>)
  {
    forall i, j :: 0 <= i < j < |s| ==> LexLe(s[i], s[j])
  }

  /** `[str(file) for file in directory.iterdir()]` for the entry names
      `iterdir` yields. */
  function Paths(dir: string, names: seq<string>): (ps: seq<string>)
    ensures |ps| == |names|
    ensures forall i :: 0 <= i < |names| ==> ps[i] == JoinPath(dir, names[i])
  {
    seq(|names|, i requires 0 <= i < |names| => JoinPath(dir, names[i]))
  }

  /** The clip moviepy builds: its frame files, in order, and its rate. */
  datatype Clip = Clip(files: seq<string>, fps: int)

  /** The first `n` entries are ascending. */
  predicate SortedUpTo(s: seq<string>, n: nat)
    requires n <= |s|
  {
    forall p, q :: 0 <= p < q < n ==> LexLe(s[p], s[q])
  }

  /** `files.sort()`: insertion sort, in place. */
  method SortPaths(a: array<string>)
    modifies a
    ensures Sorted(a[..])
    ensures multiset(a[..]) == multiset(old(a[..]))
  {
    for i := 0 to a.Length
      invariant SortedUpTo(a[..], i)
      invariant multiset(a[..]) == multiset(old(a[..]))
    {
      Insert(a, i);
    }
  }

  /** Move `a[i]` down into the ascending prefix `a[..i]`. */
  method Insert(a: array<string>, i: nat)
    requires i < a.Length && SortedUpTo(a[..], i)
    modifies a
    ensures SortedUpTo(a[..], i + 1)
    ensures multiset(a[..]) == multiset(old(a[..]))
  {
    var j := i;
    while j > 0 && LexLess(a[j], a[j - 1])
      invariant 0 <= j <= i
      invariant multiset(a[..]) == multiset(old(a[..]))
      invariant forall p, q :: 0 <= p < q <= i && q != j ==> LexLe(a[p], a[q])
      invariant forall q :: j < q <= i ==> LexLe(a[j], a[q])
    {
      Swap(a, j);
      j := j - 1;
    }
    if j > 0 {
      LexLeTotal(a[j - 1], a[j]);
      forall p | 0 <= p < j ensures LexLe(a[p], a[j]) {
        LexLeTransitive(a[p], a[j - 1], a[j]);
      }
    }
  }

  /** Exchange `a[j - 1]` and `a[j]`. */
  method Swap(a: array<string>, j: nat)
    requires 0 < j < a.Length
    modifies a
    ensures a[..] == old(a[..])[j - 1 := old(a[j])][j := old(a[j - 1])]
    ensures multiset(a[..]) == multiset(old(a[..]))
  {
    a[j - 1], a[j] := a[j], a[j - 1];
  }

  /** `frames_to_video_moviepy`: the directory's files, as strings, sorted
      ascending, become the clip's frames. Writing the video is not
      modelled. */
  method FramesToVideoMoviepy(directory: string, resolve: string -> string, entries: seq<string>, fps: int)
    returns (clip: Clip)
    ensures Sorted(clip.files)
    ensures multiset(clip.files) == multiset(Paths(resolve(directory), entries))
    ensures clip.fps == fps
  {
    var files := Paths(resolve(directory), entries);
    var a := new string[|files|](i requires 0 <= i < |files| => files[i]);
    assert a[..] == files;
    SortPaths(a);
    clip := Clip(a[..], fps);
  }

  // ---------------------------------------------------------------------
  // The sorted list is determined, and puts frames in counter order

  /** Two ascending arrangements of the same strings are the same list. */
  lemma {:induction false} SortedUnique(a: seq<string>, b: seq<string>)
    requires Sorted(a) && Sorted(b) && multiset(a) == multiset(b)
    ensures a == b
    decreases |a|
  {
    if a == [] {
      assert |multiset(b)| == 0;
    } else {
      SortedHead(a, b);
      assert a == [a[0]] + a[1..] && b == [b[0]] + b[1..];
      assert multiset(a[1..]) == multiset(a) - multiset{a[0]};
      assert multiset(b[1..]) == multiset(b) - multiset{b[0]};
      SortedUnique(a[1..], b[1..]);
    }
  }

  /** Two ascending arrangements of the same strings start alike. */
  lemma SortedHead(a: seq<string>, b: seq<string>)
    requires Sorted(a) && Sorted(b) && multiset(a) == multiset(b) && a != []
    ensures b != [] && a[0] == b[0]
  {
    assert |b| == |multiset(b)| == |multiset(a)| == |a|;
    assert a[0] in multiset(b) && b[0] in multiset(a);
    var j :| 0 <= j < |b| && b[j] == a[0];
    var i :| 0 <= i < |a| && a[i] == b[0];
    assert LexLe(a[0], b[0]) by { if i > 0 { assert LexLe(a[0], a[i]); } }
    assert LexLe(b[0], a[0]) by { if j > 0 { assert LexLe(b[0], b[j]); } }
    LexLeAntisymmetric(a[0], b[0]);
  }

  lemma PathsAppend(dir: string, u: seq<string>, v: seq<string>)
    ensures Paths(dir, u + v) == Paths(dir, u) + Paths(dir, v)
  {
  }

  /** The files of a directory do not depend on the order `iterdir` lists
      its entries in, as a multiset. */
  lemma {:induction false} PathsMultiset(dir: string, a: seq<string>, b: seq<string>)
    requires multiset(a) == multiset(b)
    ensures multiset(Paths(dir, a)) == multiset(Paths(dir, b))
    decreases |a|
  {
    if a == [] {
      assert |multiset(b)| == 0;
    } else {
      var n := |a| - 1;
      var x := a[n];
      assert x in multiset(b);
      var j :| 0 <= j < |b| && b[j] == x;
      var rest := b[..j] + b[j + 1..];
      assert b == b[..j] + [x] + b[j + 1..];
      assert a == a[..n] + [x];
      assert multiset(b) == multiset(b[..j]) + multiset{x} + multiset(b[j + 1..]);
      assert multiset(rest) == multiset(b[..j]) + multiset(b[j + 1..]);
      assert multiset(a) == multiset(a[..n]) + multiset{x};
      assert multiset(a[..n]) == multiset(a) - multiset{x};
      assert multiset(rest) == multiset(b) - multiset{x};
      PathsMultiset(dir, a[..n], rest);
      PathsAppend(dir, a[..n], [x]);
      PathsAppend(dir, b[..j] + [x], b[j + 1..]);
      PathsAppend(dir, b[..j], [x]);
      PathsAppend(dir, b[..j], b[j + 1..]);
    }
  }

  /** The names `000000.png` up to counter `n - 1`. */
  function FrameNames(n: nat): (names: seq<string>)
    ensures |names| == n && forall i :: 0 <= i < n ==> names[i] == FrameName(i)
  {
    seq(n, i requires 0 <= i => FrameName(i))
  }

  /** Below a million frames, the frame files of a directory are ascending in
      counter order. */
  lemma FramePathsSorted(dir: string, n: nat)
    requires n <= 1000000
    ensures Sorted(Paths(dir, FrameNames(n)))
  {
    var ps := Paths(dir, FrameNames(n));
    forall i, j | 0 <= i < j < n ensures LexLe(ps[i], ps[j]) {
      FrameNameOrder(i, j);
      FrameNameRelative(i);
      FrameNameRelative(j);
      JoinPathOrder(dir, FrameName(i), FrameName(j));
    }
  }

  /** A directory holding exactly the frames `0 .. n-1` (n at most a million),
      listed in any order, becomes a clip whose frames are in counter
      order. */
  lemma FramesToVideoInCounterOrder(dir: string, entries: seq<string>, n: nat, files: seq<string>)
    requires n <= 1000000 && multiset(entries) == multiset(FrameNames(n))
    requires Sorted(files) && multiset(files) == multiset(Paths(dir, entries))
    ensures files == Paths(dir, FrameNames(n))
  {
    PathsMultiset(dir, entries, FrameNames(n));
    FramePathsSorted(dir, n);
    SortedUnique(files, Paths(dir, FrameNames(n)));
  }
}
