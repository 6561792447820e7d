/** What the Pillow recorders in screenio/record.py and screenio/funcs.py
    share: a grab is kept when difference checking is off or it differs from
    the grab before it, and kept frames are either written to a video or saved
    as numbered files `000000.png`, `000001.png`, ... in a directory. Images
    are abstract values compared with `!=`, as Pillow compares images. */
module Frames {
  import opened Text

  // ---------------------------------------------------------------------
  // Which grabs are kept

  /** `not difference or current_img != last_img` */
  predicate Keeps<Img(==)>(difference: bool, current: Img, previous: Img)
  {
    !difference || current != previous
  }

  /** What grab `i` of the loop is compared with: `last_img` is the grab taken
      before the loop for the first one, and the grab before it otherwise. */
  function Previous<Img>(first: Img, grabs: seq<Img>, i: nat): Img
    requires i < |grabs|
  {
    if i == 0 then first else grabs[i - 1]
  }

  /** The positions of the kept grabs, in grab order. */
  function KeptIndices<Img(==)>(first: Img, grabs: seq<Img>, difference: bool): (ks: seq<nat>)
    ensures forall k :: 0 <= k < |ks| ==> ks[k] < |grabs|
  {
    if grabs == [] then []
    else
      var n := |grabs| - 1;
      var rest := KeptIndices(first, grabs[..n], difference);
      if Keeps(difference, grabs[n], Previous(first, grabs, n)) then rest + [n] else rest
  }

  /** The kept grabs, in grab order. */
  function Kept<Img(==)>(first: Img, grabs: seq<Img>, difference: bool): seq<Img>
  {
    if grabs == [] then []
    else
      var n := |grabs| - 1;
      var rest := Kept(first, grabs[..n], difference);
      if Keeps(difference, grabs[n], Previous(first, grabs, n)) then rest + [grabs[n]] else rest
  }

  /** The kept grabs are exactly the grabs at the kept positions. */
  lemma {:induction false} KeptAtIndices<Img>(first: Img, grabs: seq<Img>, difference: bool)
    ensures |Kept(first, grabs, difference)| == |KeptIndices(first, grabs, difference)|
    ensures forall k :: 0 <= k < |Kept(first, grabs, difference)| ==>
      Kept(first, grabs, difference)[k] == grabs[KeptIndices(first, grabs, difference)[k]]
  {
    if grabs != [] {
      var n := |grabs| - 1;
      KeptAtIndices(first, grabs[..n], difference);
    }
  }

  /** Grab `i` is kept exactly when difference checking is off or it differs
      from the grab before it (the pre-loop grab for the first one). */
  lemma {:induction false} KeptExactly<Img>(first: Img, grabs: seq<Img>, difference: bool, i: nat)
    requires i < |grabs|
    ensures i in KeptIndices(first, grabs, difference) <==> Keeps(difference, grabs[i], Previous(first, grabs, i))
  {
    var n := |grabs| - 1;
    if i < n {
      KeptExactly(first, grabs[..n], difference, i);
      assert Previous(first, grabs[..n], i) == Previous(first, grabs, i);
    }
  }

  /** Kept positions increase strictly: frames keep their grab order. */
  lemma {:induction false} KeptIndicesIncreasing<Img>(first: Img, grabs: seq<Img>, difference: bool)
    ensures forall a, b :: 0 <= a < b < |KeptIndices(first, grabs, difference)| ==>
      KeptIndices(first, grabs, difference)[a] < KeptIndices(first, grabs, difference)[b]
  {
    if grabs != [] {
      var n := |grabs| - 1;
      KeptIndicesIncreasing(first, grabs[..n], difference);
      var rest := KeptIndices(first, grabs[..n], difference);
      var ks := KeptIndices(first, grabs, difference);
      assert forall a, b :: 0 <= a < b < |rest| ==> rest[a] < rest[b];
      if Keeps(difference, grabs[n], Previous(first, grabs, n)) {
        assert ks == rest + [n];
        forall a, b | 0 <= a < b < |ks| ensures ks[a] < ks[b] {
          assert ks[a] == rest[a] && rest[a] < n;
          if b < |rest| {
            assert ks[b] == rest[b];
          } else {
            assert ks[b] == n;
          }
        }
      }
    }
  }

  /** Without difference checking every grab is kept, in order. */
  lemma {:induction false} KeptAll<Img>(first: Img, grabs: seq<Img>)
    ensures Kept(first, grabs, false) == grabs
  {
    if grabs != [] {
      var n := |grabs| - 1;
      KeptAll(first, grabs[..n]);
      assert grabs[..n] + [grabs[n]] == grabs;
    }
  }

  /** With difference checking, a first grab equal to the pre-loop grab is
      skipped. */
  lemma FirstRepeatSkipped<Img>(first: Img, grabs: seq<Img>)
    requires grabs != [] && grabs[0] == first
    ensures 0 !in KeptIndices(first, grabs, true)
  {
    KeptExactly(first, grabs, true, 0);
  }

  /** `last_img` moves on with every grab, kept or not; yet with difference
      checking it always equals the last kept frame (the pre-loop grab while
      none is kept), because a skipped grab equals the one before it. */
  lemma {:induction false} PreviousIsLastKept<Img>(first: Img, grabs: seq<Img>, i: nat)
    requires i < |grabs|
    ensures var k := Kept(first, grabs[..i], true);
      Previous(first, grabs, i) == if k == [] then first else k[|k| - 1]
  {
    if i > 0 {
      var j := i - 1;
      assert grabs[..i][..j] == grabs[..j];
      assert grabs[..i][j] == grabs[j];
      PreviousIsLastKept(first, grabs, j);
    }
  }

  // ---------------------------------------------------------------------
  // Frame file names

  const FRAME_WIDTH := 6
  const FRAME_SUFFIX := ".png"

  /** `'{:06d}.png'.format(counter)` */
  function FrameName(n: nat): (s: string)
    ensures |s| >= FRAME_WIDTH + 4 && s[|s| - 4..] == FRAME_SUFFIX
    ensures AllDigits(s[..|s| - 4]) && Value(s[..|s| - 4]) == n
  {
    var digits := ZeroPad(n, FRAME_WIDTH);
    ValueZeroPad(n, FRAME_WIDTH);
    assert (digits + FRAME_SUFFIX)[..|digits|] == digits;
    digits + FRAME_SUFFIX
  }

  /** Different counters give different names. */
  lemma FrameNameInjective(a: nat, b: nat)
    requires a != b
    ensures FrameName(a) != FrameName(b)
  {
  }

  /** Below a million the names are ten characters long and sort as their
      counters do. */
  lemma FrameNameOrder(a: nat, b: nat)
    requires a < b < 1000000
    ensures |FrameName(a)| == |FrameName(b)| == FRAME_WIDTH + 4
    ensures LexLess(FrameName(a), FrameName(b))
  {
    DecimalLength(a, FRAME_WIDTH);
    DecimalLength(b, FRAME_WIDTH);
    var da, db := ZeroPad(a, FRAME_WIDTH), ZeroPad(b, FRAME_WIDTH);
    ValueZeroPad(a, FRAME_WIDTH);
    ValueZeroPad(b, FRAME_WIDTH);
    LexLessDigits(da, db);
    LexLessEqualLengthSuffix(da, db, FRAME_SUFFIX, FRAME_SUFFIX);
  }

  /** From a million frames on, the names outgrow six digits and no longer
      sort as their counters: `1000000.png` sorts before `999999.png`. */
  lemma FrameNameOrderBreaks()
    ensures LexLess(FrameName(1000000), FrameName(999999))
  {
    assert Decimal(1)[0] == '1';
    assert Decimal(10)[0] == '1';
    assert Decimal(100)[0] == '1';
    assert Decimal(1000)[0] == '1';
    assert Decimal(10000)[0] == '1';
    assert Decimal(100000)[0] == '1' && |Decimal(100000)| == 6;
    assert Decimal(1000000)[0] == '1' && |Decimal(1000000)| == 7;
    assert Decimal(9)[0] == '9';
    assert Decimal(99)[0] == '9';
    assert Decimal(999)[0] == '9';
    assert Decimal(9999)[0] == '9';
    assert Decimal(99999)[0] == '9' && |Decimal(99999)| == 5;
    assert Decimal(999999)[0] == '9' && |Decimal(999999)| == 6;
    assert FrameName(1000000)[0] == '1';
    assert FrameName(999999)[0] == '9';
  }

  /** Frame names do not start with `/`, so joining them onto a directory
      keeps them inside it. */
  lemma FrameNameRelative(n: nat)
    ensures FrameName(n) != [] && FrameName(n)[0] != '/'
  {
    var s := FrameName(n);
    assert IsDigit(s[..|s| - 4][0]);
  }

  // ---------------------------------------------------------------------
  // Saving frames into a directory

  datatype ImageFormat = PNG | JPEG

  /** A file written by `Image.save`: the image and the encoding used. */
  datatype Saved<Img> = Saved(image: Img, format: ImageFormat)

  /** The output directory: entry name to file content. */
  class Directory<Img> {
    var files: map<string, Saved<Img>>

    constructor (entries: map<string, Saved<Img>>)
      ensures files == entries
    {
      files := entries;
    }
  }

  /** The directory after saving `imgs` under consecutive counters from
      `start`, one after the other. */
  function Saves<Img>(files: map<string, Saved<Img>>, start: nat, imgs: seq<Img>, format: ImageFormat): map<string, Saved<Img>>
  {
    if imgs == [] then files
    else
      var n := |imgs| - 1;
      Saves(files, start, imgs[..n], format)[FrameName(start + n) := Saved(imgs[n], format)]
  }

  /** Frame `j` is found under counter `start + j`. */
  lemma {:induction false} SavesAt<Img>(files: map<string, Saved<Img>>, start: nat, imgs: seq<Img>, format: ImageFormat, j: nat)
    requires j < |imgs|
    ensures FrameName(start + j) in Saves(files, start, imgs, format)
    ensures Saves(files, start, imgs, format)[FrameName(start + j)] == Saved(imgs[j], format)
  {
    var n := |imgs| - 1;
    if j < n {
      SavesAt(files, start, imgs[..n], format, j);
      FrameNameInjective(start + j, start + n);
    }
  }

  /** Entries that are not one of the new names are left as they were. */
  lemma {:induction false} SavesElsewhere<Img>(files: map<string, Saved<Img>>, start: nat, imgs: seq<Img>, format: ImageFormat, k: string)
    requires forall i :: start <= i < start + |imgs| ==> k != FrameName(i)
    ensures k in Saves(files, start, imgs, format) <==> k in files
    ensures k in files ==> Saves(files, start, imgs, format)[k] == files[k]
  {
    if imgs != [] {
      SavesElsewhere(files, start, imgs[..|imgs| - 1], format, k);
    }
  }

  /** The entries of a directory are exactly the frames `0 .. n-1`. */
  ghost predicate Numbered(names: set<string>, n: nat)
  {
    forall k :: k in names <==> exists i :: 0 <= i < n && k == FrameName(i)
  }

  /** A directory numbered `0 .. n-1` continued from `n` loses no file and is
      numbered `0 .. n+m-1` afterwards. */
  lemma SavesContinue<Img>(files: map<string, Saved<Img>>, imgs: seq<Img>, format: ImageFormat)
    requires Numbered(files.Keys, |files|)
    ensures forall k :: k in files ==>
      (k in Saves(files, |files|, imgs, format) && Saves(files, |files|, imgs, format)[k] == files[k])
    ensures Numbered(Saves(files, |files|, imgs, format).Keys, |files| + |imgs|)
  {
    forall k | k in files
      ensures k in Saves(files, |files|, imgs, format) && Saves(files, |files|, imgs, format)[k] == files[k]
    {
      SavesKeepsOld(files, imgs, format, k);
    }
    forall i | 0 <= i < |files| + |imgs|
      ensures FrameName(i) in Saves(files, |files|, imgs, format)
    {
      SavesHas(files, imgs, format, i);
    }
    forall k | k in Saves(files, |files|, imgs, format)
      ensures exists i :: 0 <= i < |files| + |imgs| && k == FrameName(i)
    {
      SavesOrigin(files, imgs, format, k);
    }
  }

  lemma SavesKeepsOld<Img>(files: map<string, Saved<Img>>, imgs: seq<Img>, format: ImageFormat, k: string)
    requires Numbered(files.Keys, |files|) && k in files
    ensures k in Saves(files, |files|, imgs, format) && Saves(files, |files|, imgs, format)[k] == files[k]
  {
    var start := |files|;
    var i :| 0 <= i < start && k == FrameName(i);
    forall c | start <= c < start + |imgs| ensures k != FrameName(c) {
      FrameNameInjective(i, c);
    }
    SavesElsewhere(files, start, imgs, format, k);
  }

  /** Numbering from the entry count overwrites when the directory is not
      exactly frames 0..n-1: a directory holding only frame 1 has one entry,
      so the next frame is saved as frame 1 over the old one. */
  lemma SavesOverwritesGap<Img>(x: Img, y: Img)
    ensures var files := map[FrameName(1) := Saved(x, PNG)];
      && |files| == 1
      && FrameName(1) in Saves(files, |files|, [y], PNG)
      && Saves(files, |files|, [y], PNG)[FrameName(1)] == Saved(y, PNG)
      && (x != y ==> Saves(files, |files|, [y], PNG)[FrameName(1)] != files[FrameName(1)])
  {
    var files := map[FrameName(1) := Saved(x, PNG)];
    assert files.Keys == {FrameName(1)};
    SavesAt(files, 1, [y], PNG, 0);
  }

  lemma SavesHas<Img>(files: map<string, Saved<Img>>, imgs: seq<Img>, format: ImageFormat, i: nat)
    requires Numbered(files.Keys, |files|) && i < |files| + |imgs|
    ensures FrameName(i) in Saves(files, |files|, imgs, format)
  {
    if i < |files| {
      SavesKeepsOld(files, imgs, format, FrameName(i));
    } else {
      SavesAt(files, |files|, imgs, format, i - |files|);
    }
  }

  lemma SavesOrigin<Img>(files: map<string, Saved<Img>>, imgs: seq<Img>, format: ImageFormat, k: string)
    requires Numbered(files.Keys, |files|) && k in Saves(files, |files|, imgs, format)
    ensures exists i :: 0 <= i < |files| + |imgs| && k == FrameName(i)
  {
    var start := |files|;
    if forall c :: start <= c < start + |imgs| ==> k != FrameName(c) {
      SavesElsewhere(files, start, imgs, format, k);
      var i :| 0 <= i < start && k == FrameName(i);
      assert i < start + |imgs|;
    }
  }

  /** One more kept grab. */
  lemma KeptStep<Img>(first: Img, grabs: seq<Img>, difference: bool, i: nat)
    requires i < |grabs|
    ensures Kept(first, grabs[..i + 1], difference)
         == Kept(first, grabs[..i], difference)
          + (if Keeps(difference, grabs[i], Previous(first, grabs, i)) then [grabs[i]] else [])
  {
    assert grabs[..i + 1][..i] == grabs[..i];
  }

  /** One more saved frame. */
  lemma SavesStep<Img>(files: map<string, Saved<Img>>, start: nat, imgs: seq<Img>, img: Img, format: ImageFormat)
    ensures Saves(files, start, imgs + [img], format)
         == Saves(files, start, imgs, format)[FrameName(start + |imgs|) := Saved(img, format)]
  {
    assert (imgs + [img])[..|imgs|] == imgs;
  }

  /** The Pillow frame loop: `counter` starts at the number of entries in
      the directory, each kept grab is saved as `{counter:06d}.png` in
      `format` and only a save advances the counter. */
  method SaveFrames<Img(==)>(dir: Directory<Img>, first: Img, grabs: seq<Img>, difference: bool, format: ImageFormat)
    returns (counter: nat)
    modifies dir
    ensures counter == |old(dir.files)| + |Kept(first, grabs, difference)|
    ensures dir.files == Saves(old(dir.files), |old(dir.files)|, Kept(first, grabs, difference), format)
  {
    counter := |dir.files|;
    var start := counter;
    ghost var files0 := dir.files;
    ghost var kept: seq<Img> := [];
    var last := first;
    var i := 0;
    assert grabs[..0] == [];
    while i < |grabs|
      invariant 0 <= i <= |grabs|
      invariant last == if i == 0 then first else grabs[i - 1]
      invariant kept == Kept(first, grabs[..i], difference)
      invariant counter == start + |kept|
      invariant dir.files == Saves(files0, start, kept, format)
    {
      var current := grabs[i];
      KeptStep(first, grabs, difference, i);
      if Keeps(difference, current, last) {
        SavesStep(files0, start, kept, current, format);
        dir.files := dir.files[FrameName(counter) := Saved(current, format)];
        counter := counter + 1;
        kept := kept + [current];
      }
      last := current;
      i := i + 1;
    }
    assert grabs[..i] == grabs;
  }

  // ---------------------------------------------------------------------
  // Writing frames to a video

  /** `cv2.VideoWriter`: the frames written so far and whether it was
      released. */
  class VideoWriter<Img> {
    const path: string
    var frames: seq<Img>
    var released: bool

    constructor (output: string)
      ensures path == output && frames == [] && !released
    {
      path := output;
      frames := [];
      released := false;
    }

    /** `out.write(frame)` */
    method Write(frame: Img)
      modifies this
      ensures frames == old(frames) + [frame] && released == old(released)
    {
      frames := frames + [frame];
    }

    /** `out.release()` */
    method Release()
      modifies this
      ensures released && frames == old(frames)
    {
      released := true;
    }
  }
}
