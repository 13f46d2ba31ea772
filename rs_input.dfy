/** The Rust helper's treatment of one chunk read from its stdin before it
    reaches the PTY master (resources/pty-rs/src/main.rs:377-412): NUL
    bytes are dropped (their presence asks for an immediate agent check),
    and a chunk that opens with the window-resize control sequence
    `ESC [ 8 ; rows ; cols t` loses everything up to its first `t`. */
module RsInput {
  import opened Common
  import opened Numbers

  /** `ESC [ 8 ;`: the start of the resize control sequence. */
  const ResizePrefix: seq<Byte> := [0x1b, 0x5b, 0x38, 0x3b]
  /** `t`: the final byte of the resize control sequence. */
  const FinalT: Byte := 0x74
  /** `;`: the parameter separator. */
  const Semicolon: Byte := 0x3b

  /** The chunk with every NUL byte removed, the others kept in order. */
  function FilterNul(chunk: seq<Byte>): (r: seq<Byte>)
    ensures 0 !in r
    ensures |r| == |chunk| - Count(chunk, 0)
  {
    if chunk == [] then [] else (if chunk[0] == 0 then [] else [chunk[0]]) + FilterNul(chunk[1..])
  }

  /** Filtering works piecewise: the surviving bytes keep their order. */
  lemma {:induction false} FilterNulAppend(a: seq<Byte>, b: seq<Byte>)
    ensures FilterNul(a + b) == FilterNul(a) + FilterNul(b)
  {
    if a == [] {
      assert a + b == b;
      assert FilterNul(a) + FilterNul(b) == FilterNul(b);
    } else {
      var head: seq<Byte> := if a[0] == 0 then [] else [a[0]];
      var x, y := FilterNul(a[1..]), FilterNul(b);
      assert head + (x + y) == (head + x) + y;
      assert (a + b)[0] == a[0] && (a + b)[1..] == a[1..] + b;
      FilterNulAppend(a[1..], b);
    }
  }

  /** A chunk without NUL bytes passes the filter untouched. */
  lemma {:induction false} FilterNulNoNul(chunk: seq<Byte>)
    requires 0 !in chunk
    ensures FilterNul(chunk) == chunk
  {
    if chunk != [] {
      FilterNulNoNul(chunk[1..]);
      assert [chunk[0]] + chunk[1..] == chunk;
    }
  }

  /** Bytes read as text one character per byte. A resize field goes through
      `str::from_utf8(..).unwrap_or("")` before `parse`; a byte of 0x80 or
      more fails that parse either way, so the outcome is the same. */
  function Latin(bytes: seq<Byte>): (s: string)
    ensures |s| == |bytes|
    ensures forall k :: 0 <= k < |bytes| ==> s[k] as int == bytes[k]
  {
    if bytes == [] then [] else [bytes[0] as char] + Latin(bytes[1..])
  }

  /** What the resize branch does to one (NUL-filtered) slice: the window
      size it would apply, if any, and the bytes left to forward. */
  datatype ResizeStep = ResizeStep(winsize: Option<(int, int)>, rest: seq<Byte>)

  /** main.rs:392-408. The body is taken from index 3, i.e. it still holds
      the `;` of the prefix, so its first field is always empty. */
  function ScanResize(slice: seq<Byte>): (r: ResizeStep)
    ensures |r.rest| <= |slice| && r.rest == slice[|slice| - |r.rest|..]
    ensures ResizePrefix <= slice && FinalT in slice ==>
              var cut := |slice| - |r.rest|;
              0 < cut && slice[cut - 1] == FinalT && FinalT !in slice[..cut - 1]
    ensures !(ResizePrefix <= slice && FinalT in slice) ==> r == ResizeStep(None, slice)
  {
    if ResizePrefix <= slice then
      match FirstIndex(slice, FinalT)
      case None => ResizeStep(None, slice)
      case Some(pos) =>
        assert forall k :: 0 <= k < 4 ==> slice[k] == ResizePrefix[k] != FinalT;
        var body := slice[3..pos];
        var parts := Split(body, Semicolon);
        var size :=
          if |parts| >= 2 then
            match (ParseU16(Latin(parts[0])), ParseU16(Latin(parts[1])))
            case (Some(rows), Some(cols)) => Some((rows, cols))
            case _ => None
          else None;
        assert slice[..pos] == slice[..|slice| - |slice[pos + 1..]| - 1];
        ResizeStep(size, slice[pos + 1..])
    else ResizeStep(None, slice)
  }

  /** The resize branch never resizes: the rows field is always empty, so
      `set_winsize` and the SIGWINCH are unreachable (main.rs:394-405). */
  lemma ResizeNeverApplies(slice: seq<Byte>)
    ensures ScanResize(slice).winsize == None
  {
    if ResizePrefix <= slice && FinalT in slice {
      var pos := FirstIndex(slice, FinalT).value;
      assert forall k :: 0 <= k < 4 ==> slice[k] == ResizePrefix[k] != FinalT;
      var body := slice[3..pos];
      assert body[0] == Semicolon;
      assert body == [Semicolon] + body[1..];
      assert Split(body, Semicolon)[0] == [];
      assert Latin([]) == "";
    }
  }

  /** The bytes the helper writes to the PTY master for one stdin chunk,
      `None` when nothing is written (main.rs:410-412). */
  function Forwarded(chunk: seq<Byte>): Option<seq<Byte>>
  {
    var rest := ScanResize(FilterNul(chunk)).rest;
    if rest == [] then None else Some(rest)
  }

  /** `ESC [ 8 ; rows ; cols t`, the resize request the host writes, with
      the two fields given as text. */
  function ResizeRequest(rows: seq<Byte>, cols: seq<Byte>): seq<Byte>
  {
    ResizePrefix + rows + [Semicolon] + cols + [FinalT]
  }

  /** A resize request is consumed whole: nothing of it reaches the shell
      and no window size is applied, and input that follows it in the same
      chunk is forwarded as it is. */
  lemma ResizeRequestSwallowed(rows: seq<Byte>, cols: seq<Byte>, tail: seq<Byte>)
    requires FinalT !in rows && FinalT !in cols
    requires 0 !in rows && 0 !in cols && 0 !in tail
    ensures ScanResize(ResizeRequest(rows, cols) + tail) == ResizeStep(None, tail)
    ensures Forwarded(ResizeRequest(rows, cols) + tail) == if tail == [] then None else Some(tail)
  {
    var req := ResizeRequest(rows, cols);
    var c := req + tail;
    var n := |req|;
    assert 0 !in c by {
      assert 0 !in ResizePrefix;
    }
    assert c[..4] == ResizePrefix;
    assert c[n - 1] == FinalT;
    assert forall k :: 0 <= k < n - 1 ==> c[k] != FinalT by {
      forall k | 0 <= k < n - 1 ensures c[k] != FinalT {
        if k < 4 {
          assert c[k] == ResizePrefix[k];
        } else if k < 4 + |rows| {
          assert c[k] == rows[k - 4];
        } else if k > 4 + |rows| {
          assert c[k] == cols[k - 5 - |rows|];
        }
      }
    }
    assert c[n..] == tail;
    var cut := |c| - |ScanResize(c).rest|;
    assert cut == n;
    ResizeNeverApplies(c);
    FilterNulNoNul(c);
  }
}
