/** control.go, syncBuffer: what is kept of tmux's standard error. */
module SyncBuffer {

  const MAX_STDERR := 0x1_0000

  function Kept(written: string): string {
    if |written| <= MAX_STDERR then written else written[..MAX_STDERR]
  }

  class SyncBuffer {
    var buf: string
    var dropped: nat
    ghost var written: string   // every byte ever written

    // The earliest bytes are kept, and every other is counted.
    ghost predicate Valid()
      reads this
    {
      buf == Kept(written) && |buf| + dropped == |written|
    }

    constructor ()
      ensures Valid() && written == ""
    {
      buf, dropped, written := "", 0, "";
    }

    // Never a short write: the whole of it is reported as accepted. All of it is kept up to the limit,
    // and exactly that many bytes beyond.
    method Write(p: string) returns (n: nat)
      requires Valid()
      modifies this
      ensures Valid() && written == old(written) + p && n == |p|
      ensures buf <= written && old(buf) <= buf
      ensures |written| <= 0x1_0000 ==> buf == written && dropped == 0
      ensures |written| > 0x1_0000 ==> |buf| == 0x1_0000 && dropped == |written| - 0x1_0000
    {
      n := |p|;
      written := written + p;
      var room := MAX_STDERR - |buf|;
      if room <= 0 {
        dropped := dropped + |p|;
      } else if |p| > room {
        buf := buf + p[..room];
        dropped := dropped + |p| - room;
      } else {
        buf := buf + p;
      }
    }
  }
}
