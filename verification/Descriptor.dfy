/** Files being written. */
module Descriptor {
  /** The system takes as much as it likes of each write, or refuses it. */
  class Output {
    var written: string
    var failed: bool  // some write of text was refused

    constructor ()
      ensures written == "" && !failed
    {
      written, failed := "", false;
    }

    method Write(text: string) returns (wrote: nat)
      modifies this
      ensures wrote <= |text| && written == old(written) + text[..wrote]
      ensures failed == (old(failed) || wrote == 0)
    {
      wrote :| wrote <= |text|;
      written := written + text[..wrote];
      failed := failed || wrote == 0;
    }

    method WriteAll(text: string) returns (ok: bool)
      modifies this
      ensures ok ==> written == old(written) + text && failed == old(failed)
      ensures !ok ==> failed && old(written) <= written <= old(written) + text
    {
      var done := 0;
      while done < |text|
        invariant done <= |text| && written == old(written) + text[..done]
        invariant failed == old(failed)
      {
        var wrote := Write(text[done..]);
        if wrote == 0 {
          return false;
        }
        assert text[..done] + text[done..][..wrote] == text[..done + wrote];
        done := done + wrote;
      }
      return true;
    }
  }
}
