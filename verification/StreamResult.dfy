/** pkg/result/result.go: the stream iterator, the channel it reads from, and their updates in place. */
module StreamResults {
  import opened Text

  /** A row as MapScan delivers it, by column name. */
  type Row = map<string, string>

  datatype StreamRow = StreamRow(row: Row, index: nat, error: string)

  datatype Fault =
    | ContextDone
    | QueryFailed
    | ColumnsFailed
    | ScanFailed
    | IterationFailed
    | RowFault(message: string)

  /** A bounded channel of rows. `closes` counts close calls: a second one would panic. */
  datatype Channel = Channel(buf: seq<StreamRow>, cap: nat, closes: nat)

  /**
   The iterator's own fields. The signal channels done and prodDone carry nothing, so only their closes are counted.
   */
  datatype Handle = Handle(
    columns: Option<seq<string>>,
    err: Option<Fault>,
    closed: bool,
    doneCloses: nat,
    current: Option<StreamRow>,
    index: nat,
    prodCloses: nat)

  const NEW_HANDLE := Handle(None, None, false, 0, None, 0, 0)

  // ---- What the operations do ------------------------------------------------------------------

  /**
   A receive goes through when a row is buffered or the channel is closed; Next does not receive once it is closed.
   */
  predicate NextReady(h: Handle, ch: Channel) {
    h.closed || ch.buf != [] || ch.closes > 0
  }

  function AfterNext(h: Handle, ch: Channel): (r: (Handle, Channel, bool))
    requires NextReady(h, ch)
  {
    if h.closed then (h, ch, false)
    else if ch.buf == [] then (h.(closed := true), ch, false)
    else (h.(current := Some(ch.buf[0]), index := h.index + 1), ch.(buf := ch.buf[1..]), true)
  }

  function AfterClose(h: Handle): Handle {
    if h.closed then h else h.(closed := true, doneCloses := h.doneCloses + 1)
  }

  function ErrOf(h: Handle): Option<Fault> {
    if h.err.Some? then h.err
    else if h.current.Some? && h.current.value.error != "" then Some(RowFault(h.current.value.error))
    else None
  }

  function AfterSend(ch: Channel, row: StreamRow): Channel {
    ch.(buf := ch.buf + [row])
  }

  function AfterCloseChannel(ch: Channel): Channel {
    ch.(closes := ch.closes + 1)
  }

  function AfterSetColumns(h: Handle, cols: seq<string>): Handle {
    h.(columns := Some(cols))
  }

  function AfterSetError(h: Handle, fault: Fault): Handle {
    h.(err := Some(fault))
  }

  function AfterProducerDone(h: Handle): Handle {
    h.(prodCloses := h.prodCloses + 1)
  }

  // ---- The objects -----------------------------------------------------------------------------

  class RowChannel {
    var buf: seq<StreamRow>
    const cap: nat
    var closes: nat

    function View(): Channel
      reads this
    {
      Channel(buf, cap, closes)
    }

    constructor (cap: nat)
      ensures View() == Channel([], cap, 0)
    {
      this.buf, this.cap, this.closes := [], cap, 0;
    }

    method Send(row: StreamRow)
      requires |buf| < cap && closes == 0
      modifies this
      ensures View() == AfterSend(old(View()), row)
    {
      buf := buf + [row];
    }

    method CloseChannel()
      requires closes == 0
      modifies this
      ensures View() == AfterCloseChannel(old(View()))
    {
      closes := closes + 1;
    }
  }

  class StreamResult {
    var columns: Option<seq<string>>
    var err: Option<Fault>
    var closed: bool
    var doneCloses: nat
    const rows: RowChannel
    var current: Option<StreamRow>
    var index: nat
    var prodCloses: nat

    function View(): Handle
      reads this
    {
      Handle(columns, err, closed, doneCloses, current, index, prodCloses)
    }

    constructor (rows: RowChannel)
      ensures View() == NEW_HANDLE && this.rows == rows
    {
      this.columns, this.err, this.closed, this.doneCloses := None, None, false, 0;
      this.rows, this.current, this.index, this.prodCloses := rows, None, 0, 0;
    }

    /** A call that is not ready blocks: it has no step until the channel changes. */
    method Next() returns (more: bool)
      requires NextReady(View(), rows.View())
      modifies this, rows
      ensures (View(), rows.View(), more) == AfterNext(old(View()), old(rows.View()))
    {
      if closed {
        return false;
      }
      if rows.buf == [] {
        closed := true;
        return false;
      }
      var row := rows.buf[0];
      rows.buf := rows.buf[1..];
      current := Some(row);
      index := index + 1;
      more := true;
    }

    method Close()
      modifies this
      ensures View() == AfterClose(old(View()))
    {
      if closed {
        return;
      }
      closed := true;
      doneCloses := doneCloses + 1;
    }

    method Err() returns (fault: Option<Fault>)
      ensures fault == ErrOf(View())
    {
      if err.Some? {
        return err;
      }
      if current.Some? && current.value.error != "" {
        return Some(RowFault(current.value.error));
      }
      fault := None;
    }

    method SetColumns(cols: seq<string>)
      modifies this
      ensures View() == AfterSetColumns(old(View()), cols)
    {
      columns := Some(cols);
    }

    method SetError(fault: Fault)
      modifies this
      ensures View() == AfterSetError(old(View()), fault)
    {
      err := Some(fault);
    }

    method SetProducerDone()
      requires prodCloses == 0
      modifies this
      ensures View() == AfterProducerDone(old(View()))
    {
      prodCloses := prodCloses + 1;
    }
  }
}
