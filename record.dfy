/** screenio/record.py: the Pillow recorders. `grab()` is replaced by the
    sequence of grabs the loop takes until it is interrupted, and
    `running.is_set()` by the number of loop tests after which the runner's
    stop flag is seen set. */
module Record {
  import opened Wrappers
  import opened Frames

  /** How many loop bodies run when `available` grabs happen before the
      interrupt: a stop flag first seen set at test `k` ends the loop after
      `k` bodies; without a flag (`running=None`) only the interrupt ends it. */
  function Iterations(running: Option<nat>, available: nat): (n: nat)
    ensures n <= available
    ensures running.None? ==> n == available
    ensures running.Some? ==> n == if running.value < available then running.value else available
  {
    match running
    case None => available
    case Some(k) => if k < available then k else available
  }

  /** `record_video_pil`: open a writer on the resolved output path, then
      write each grab that passes the difference test, comparing with the
      grab before it, until the stop flag or the interrupt; release the
      writer. `resolve` stands for `Path.resolve`. */
  method RecordVideoPil<Img(==)>(output: string, resolve: string -> string, first: Img, grabs: seq<Img>,
                                 difference: bool, running: Option<nat>)
    returns (out: VideoWriter<Img>, iterations: nat)
    ensures iterations == Iterations(running, |grabs|)
    ensures fresh(out) && out.path == resolve(output) && out.released
    ensures out.frames == Kept(first, grabs[..iterations], difference)
  {
    out := new VideoWriter(resolve(output));
    var last := first;
    var i := 0;
    assert grabs[..0] == [];
    while (running.None? || i < running.value) && i < |grabs|
      invariant 0 <= i <= |grabs|
      invariant running.Some? ==> i <= running.value
      invariant last == if i == 0 then first else grabs[i - 1]
      invariant fresh(out) && out.path == resolve(output) && !out.released
      invariant out.frames == Kept(first, grabs[..i], difference)
    {
      var current := grabs[i];
      KeptStep(first, grabs, difference, i);
      if Keeps(difference, current, last) {
        out.Write(current);
      }
      last := current;
      i := i + 1;
    }
    out.Release();
    iterations := i;
  }

  /** `record_frames_pil`: number the kept grabs from the directory's entry
      count and save each as PNG, which Pillow picks for a `.png` name. */
  method RecordFramesPil<Img(==)>(dir: Directory<Img>, first: Img, grabs: seq<Img>, difference: bool)
    returns (counter: nat)
    modifies dir
    ensures counter == |old(dir.files)| + |Kept(first, grabs, difference)|
    ensures dir.files == Saves(old(dir.files), |old(dir.files)|, Kept(first, grabs, difference), PNG)
  {
    counter := SaveFrames(dir, first, grabs, difference, PNG);
  }
}
