/** The generated renderer: node after node to a writer that may take less than it is given. */
module Renderer {
  import opened Html
  import opened Analysis
  import opened Runtime

  /** An io.Writer with room for so many more characters; what does not fit is a short write or an error. */
  class Writer {
    var contents: string
    var room: nat

    constructor (room: nat)
      ensures contents == "" && this.room == room
    {
      contents, this.room := "", room;
    }

    /** writeString: either all of it, or a failure after a part of it. */
    method WriteString(s: string) returns (ok: bool)
      modifies this
      ensures ok == (|s| <= old(room))
      ensures contents == old(contents) + (if ok then s else s[..old(room)]) && room == old(room) - |contents| + old(|contents|)
    {
      var n := if |s| <= room then |s| else room;
      contents, room := contents + s[..n], room - n;
      ok := n == |s|;
      assert ok ==> s[..n] == s;
    }
  }

  datatype Failure = NoFailure | UnsafeUrl(reason: string) | ShortWrite

  /** Renders `ir` with `fills`. `n` is how many nodes were written in full. A refused URL writes nothing of itself,
      and a failing writer leaves a prefix of what would have come. */
  method Render(lib: Library, ir: seq<Node>, fills: seq<Fill>, w: Writer) returns (failure: Failure, n: nat)
    requires |ir| == |fills|
    modifies w
    ensures n <= |ir| && Output(lib, ir, fills, 0, n).Bytes?
    ensures failure.NoFailure? ==> n == |ir| && w.contents == old(w.contents) + Output(lib, ir, fills, 0, n).text
    ensures failure.UnsafeUrl? ==>
              n < |ir| && Output(lib, ir, fills, 0, n + 1) == Refused(failure.reason)
              && w.contents == old(w.contents) + Output(lib, ir, fills, 0, n).text
    ensures failure.ShortWrite? ==>
              n < |ir| && Output(lib, ir, fills, 0, n + 1).Bytes? && |w.contents| == |old(w.contents)| + old(w.room)
              && old(w.contents) + Output(lib, ir, fills, 0, n).text <= w.contents
              && w.contents <= old(w.contents) + Output(lib, ir, fills, 0, n + 1).text
  {
    n := 0;
    while n < |ir|
      invariant n <= |ir| && Output(lib, ir, fills, 0, n).Bytes?
      invariant w.contents == old(w.contents) + Output(lib, ir, fills, 0, n).text
      invariant |w.contents| + w.room == |old(w.contents)| + old(w.room)
    {
      var emitted := WriteNode(lib, ir[n], fills[n]);
      if emitted.Refused? {
        return UnsafeUrl(emitted.reason), n;
      }
      var ok := w.WriteString(emitted.text);
      if !ok {
        return ShortWrite, n;
      }
      n := n + 1;
    }
    return NoFailure, n;
  }
}
