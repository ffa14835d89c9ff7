/** The per-transaction buffer of row events and the pending GTID
    (parser/parser/rows_event_buffer.go). */
module RowsEventBuffers {

  import opened Conversion

  class RowsEventBuffer {
    var buffered: seq<RowsEventData>
    var gtid: string

    /** `NewRowsEventBuffer`: nothing buffered, no GTID. */
    constructor ()
      ensures buffered == [] && gtid == ""
    {
      buffered := [];
      gtid := "";
    }

    method BufferRowsEventData(d: RowsEventData)
      modifies this
      ensures buffered == old(buffered) + [d]
      ensures gtid == old(gtid)
    {
      buffered := buffered + [d];
    }

    method SetGTID(gtid: string)
      modifies this
      ensures this.gtid == gtid
      ensures buffered == old(buffered)
    {
      this.gtid := gtid;
    }

    function GTID(): (g: string)
      reads this
      ensures g == gtid
    {
      gtid
    }

    /** Hands out everything buffered, in buffering order, with the GTID, and
        resets the buffer to its initial state. */
    method Drain() returns (events: seq<RowsEventData>, gtid: string)
      modifies this
      ensures events == old(buffered) && gtid == old(this.gtid)
      ensures buffered == [] && this.gtid == ""
    {
      events := buffered;
      gtid := this.gtid;
      buffered := [];
      this.gtid := "";
    }
  }

  /** A fresh buffer drains to nothing, and so does a buffer drained twice. */
  method DrainFreshAndDrainedBuffer(d: RowsEventData, g: string)
    returns (initial: (seq<RowsEventData>, string), first: (seq<RowsEventData>, string), again: (seq<RowsEventData>, string))
    ensures initial == ([], "")
    ensures first == ([d], g)
    ensures again == ([], "")
  {
    var buffer := new RowsEventBuffer();
    var events, gtid := buffer.Drain();
    initial := (events, gtid);
    buffer.BufferRowsEventData(d);
    buffer.SetGTID(g);
    assert buffer.buffered == [d];
    events, gtid := buffer.Drain();
    first := (events, gtid);
    events, gtid := buffer.Drain();
    again := (events, gtid);
  }

  /** The last GTID set wins, and a buffer reused after a drain hands out
      only what was added since. */
  method ReuseAfterDrain(d1: RowsEventData, d2: RowsEventData, d3: RowsEventData, g1: string, g2: string, g3: string)
    returns (first: (seq<RowsEventData>, string), second: (seq<RowsEventData>, string))
    ensures first == ([d1, d2], g2)
    ensures second == ([d3], g3)
  {
    var buffer := new RowsEventBuffer();
    buffer.SetGTID(g1);
    buffer.BufferRowsEventData(d1);
    buffer.SetGTID(g2);
    buffer.BufferRowsEventData(d2);
    assert buffer.buffered == [d1, d2];
    var events, gtid := buffer.Drain();
    first := (events, gtid);
    buffer.BufferRowsEventData(d3);
    buffer.SetGTID(g3);
    assert buffer.buffered == [d3];
    events, gtid := buffer.Drain();
    second := (events, gtid);
  }
}
