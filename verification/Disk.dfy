/** The disk under the log: blocks that are written one at a time, atomically.
    A crash falls between two block writes.

    The block that holds the log header is kept decoded, as the list of block numbers it
    records; LogDevice.DecodeHead relates the list to the words of the block. */
module Disk {

  /** The words of one block. */
  type Block = seq<int>

  datatype Image = Image(blocks: seq<Block>, head: seq<nat>)

  /** One call of bwrite: an ordinary block, or the log's header block. */
  datatype Write = Data(at: nat, data: Block) | Head(hs: seq<nat>)

  predicate InRange(d: Image, ws: seq<Write>) {
    forall i :: 0 <= i < |ws| && ws[i].Data? ==> ws[i].at < |d.blocks|
  }

  function Put(d: Image, w: Write): (r: Image)
    requires w.Data? ==> w.at < |d.blocks|
  {
    match w
    case Data(at, data) => d.(blocks := d.blocks[at := data])
    case Head(hs) => d.(head := hs)
  }

  /** The image after the writes `ws`, in order. */
  function Apply(d: Image, ws: seq<Write>): (r: Image)
    requires InRange(d, ws)
    ensures |r.blocks| == |d.blocks|
  {
    if ws == [] then d else Put(Apply(d, ws[..|ws| - 1]), ws[|ws| - 1])
  }

  /** One more write of a list. */
  lemma ApplyNext(d: Image, ws: seq<Write>, k: nat)
    requires InRange(d, ws) && k < |ws|
    ensures InRange(d, ws[..k]) && InRange(d, ws[..k + 1])
    ensures Apply(d, ws[..k + 1]) == Put(Apply(d, ws[..k]), ws[k])
  {
    assert ws[..k + 1][..k] == ws[..k];
  }

  lemma ApplyOne(d: Image, ws: seq<Write>, w: Write)
    requires InRange(d, ws) && (w.Data? ==> w.at < |d.blocks|)
    ensures InRange(d, ws + [w]) && Apply(d, ws + [w]) == Put(Apply(d, ws), w)
  {
    assert (ws + [w])[..|ws|] == ws;
  }

  /** Two lists of writes, one after the other. */
  lemma {:induction false} ApplyAppend(d: Image, ws: seq<Write>, vs: seq<Write>)
    requires InRange(d, ws + vs)
    ensures InRange(d, ws) && InRange(Apply(d, ws), vs)
    ensures Apply(d, ws + vs) == Apply(Apply(d, ws), vs)
    decreases |vs|
  {
    forall i | 0 <= i < |ws| && ws[i].Data?
      ensures ws[i].at < |d.blocks|
    {
      assert (ws + vs)[i] == ws[i];
    }
    forall i | 0 <= i < |vs| && vs[i].Data?
      ensures vs[i].at < |d.blocks|
    {
      assert (ws + vs)[|ws| + i] == vs[i];
    }
    if vs == [] {
      assert ws + vs == ws;
    } else {
      var n := |vs| - 1;
      assert (ws + vs)[..|ws| + n] == ws + vs[..n];
      ApplyAppend(d, ws, vs[..n]);
    }
  }
}
