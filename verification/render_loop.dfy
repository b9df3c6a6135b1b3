/**
 * The streaming render loop of csveach: take the header (unless --no-header),
 * then for each record reset and rebuild `Name`, execute the template against
 * `{N, Name, Index}`, count the record, and write the delimiters; stop with
 * success at end of input and with a distinct exit status at a read error.
 *
 * `RunSpec` is the loop as a function of the read outcomes; `Run` is the loop
 * itself, over a reader and a writer, proved to write exactly what `RunSpec`
 * gives. The lemmas then describe that output record by record.
 */
module RenderLoop {
  import opened Values
  import opened NameBinding
  import opened Streams

  /**
   * The bytes written for one record: what the template rendered, then one
   * newline if --new-line is set, then one NUL byte if --zero is set.
   */
  function Emit(cfg: Config, rendered: seq<Byte>): (r: seq<Byte>)
    ensures |r| == |rendered| + (if cfg.newLine then 1 else 0) + (if cfg.zeroDelim then 1 else 0)
    ensures r[..|rendered|] == rendered
    ensures cfg.newLine ==> r[|rendered|] == Newline
    ensures cfg.zeroDelim ==> r[|r| - 1] == Nul
  {
    rendered + (if cfg.newLine then [Newline] else []) + (if cfg.zeroDelim then [Nul] else [])
  }

  /**
   * The row loop from the point where `outcomes` are the outcomes still to come,
   * `n` is the counter and `name` the mapping left by the previous record.
   * `render` stands for template execution: the bytes it writes for a
   * context (an execution error is ignored, so it only shows in those bytes).
   */
  function RowsFrom(cfg: Config, header: seq<string>, outcomes: seq<ReadResult>, n: int,
                    name: map<string, string>, render: TemplateData -> seq<Byte>): (r: Outcome)
    ensures r.status.Code() == 0 || r.status.Code() == 7
    decreases |outcomes|
  {
    if outcomes == [] then Outcome([], Success)
    else match outcomes[0]
      case EndOfFile => Outcome([], Success)
      case ReadError => Outcome([], RowReadError)
      case Record(fields) =>
        var name' := RowNames(cfg.noHeader, header, name, fields);
        var rest := RowsFrom(cfg, header, outcomes[1..], n + 1, name', render);
        Outcome(Emit(cfg, render(TemplateData(n, name', fields))) + rest.output, rest.status)
  }

  /**
   * A whole run over the outcomes of successive reads: a template that did
   * not compile stops it first; then the header read, unless --no-header;
   * then the row loop from `N = 0` and an empty `Name`.
   */
  function RunSpec(cfg: Config, compiled: bool, outcomes: seq<ReadResult>, render: TemplateData -> seq<Byte>): (r: Outcome)
    ensures r.status.Code() == 4 <==> !compiled
    ensures r.status.Code() == 6 <==> compiled && !cfg.noHeader && outcomes != [] && outcomes[0].ReadError?
    ensures r.status.Code() == 4 || r.status.Code() == 6 ==> r.output == []
  {
    if !compiled then Outcome([], TemplateParseError)
    else if cfg.noHeader then RowsFrom(cfg, [], outcomes, 0, map[], render)
    else if outcomes == [] then Outcome([], Success)
    else match outcomes[0]
      case EndOfFile => Outcome([], Success)
      case ReadError => Outcome([], HeaderReadError)
      case Record(header) => RowsFrom(cfg, header, outcomes[1..], 0, map[], render)
  }

  /** The fields of the records read before the first outcome that is not a record. */
  function LeadingRecords(outcomes: seq<ReadResult>): seq<seq<string>>
    decreases |outcomes|
  {
    if outcomes == [] || !outcomes[0].Record? then [] else [outcomes[0].fields] + LeadingRecords(outcomes[1..])
  }

  /** How the row loop ends: at the first outcome that is not a record. */
  function StopStatus(outcomes: seq<ReadResult>): ExitStatus
    decreases |outcomes|
  {
    if outcomes == [] then Success
    else match outcomes[0]
      case Record(_) => StopStatus(outcomes[1..])
      case EndOfFile => Success
      case ReadError => RowReadError
  }

  /**
   * The loop renders exactly the records before the first non-record outcome,
   * and ends with status 7 exactly when that outcome is a read error.
   */
  lemma {:induction false} LeadingRecordsStop(outcomes: seq<ReadResult>)
    ensures |LeadingRecords(outcomes)| <= |outcomes|
    ensures forall j :: 0 <= j < |LeadingRecords(outcomes)| ==> outcomes[j] == Record(LeadingRecords(outcomes)[j])
    ensures |LeadingRecords(outcomes)| < |outcomes| ==> !outcomes[|LeadingRecords(outcomes)|].Record?
    ensures var k := |LeadingRecords(outcomes)|;
            StopStatus(outcomes) == if k < |outcomes| && outcomes[k].ReadError? then RowReadError else Success
    decreases |outcomes|
  {
    if outcomes != [] && outcomes[0].Record? {
      LeadingRecordsStop(outcomes[1..]);
      var rest := LeadingRecords(outcomes[1..]);
      assert LeadingRecords(outcomes) == [outcomes[0].fields] + rest;
      forall j | 0 <= j < |LeadingRecords(outcomes)|
        ensures outcomes[j] == Record(LeadingRecords(outcomes)[j])
      {
        if j > 0 {
          assert outcomes[j] == outcomes[1..][j - 1];
        }
      }
    }
  }

  /**
   * The contexts the template is executed against for `rows`, when the
   * counter starts at `n0` and the mapping at `name0`: the `i`-th holds the
   * counter `n0 + i`, the mapping after `rows[..i + 1]`, and the fields `rows[i]`.
   */
  function Contexts(noHeader: bool, header: seq<string>, name0: map<string, string>,
                    rows: seq<seq<string>>, n0: int): seq<TemplateData>
  {
    seq(|rows|, i requires 0 <= i < |rows| =>
      TemplateData(n0 + i, NameAfter(noHeader, header, name0, rows[..i + 1]), rows[i]))
  }

  /**
   * The contexts of a record followed by more records: the record's own,
   * with counter `n0` and the mapping rebuilt from `name0`, then those of
   * the rest, with the counter one higher and that mapping carried over.
   */
  lemma ContextsCons(noHeader: bool, header: seq<string>, name0: map<string, string>,
                     fields: seq<string>, rows: seq<seq<string>>, n0: int)
    ensures var name1 := RowNames(noHeader, header, name0, fields);
            Contexts(noHeader, header, name0, [fields] + rows, n0)
            == [TemplateData(n0, name1, fields)] + Contexts(noHeader, header, name1, rows, n0 + 1)
  {
    var name1 := RowNames(noHeader, header, name0, fields);
    var all := [fields] + rows;
    var cs := Contexts(noHeader, header, name0, all, n0);
    var cs' := Contexts(noHeader, header, name1, rows, n0 + 1);
    assert NameAfter(noHeader, header, name0, all[..1]) == name1 by {
      assert all[..1] == [fields];
      assert [fields][1..] == [];
    }
    forall i | 0 <= i < |cs'|
      ensures cs[i + 1] == cs'[i]
    {
      assert all[..i + 2] == [fields] + rows[..i + 1];
    }
  }

  /** The output of rendering the contexts `cs` one after another, each followed by its delimiters. */
  function RenderAll(cfg: Config, render: TemplateData -> seq<Byte>, cs: seq<TemplateData>): seq<Byte>
    decreases |cs|
  {
    if cs == [] then [] else Emit(cfg, render(cs[0])) + RenderAll(cfg, render, cs[1..])
  }

  /** The last record's output is followed by its delimiters like every other record's. */
  lemma {:induction false} RenderAllAppend(cfg: Config, render: TemplateData -> seq<Byte>, cs: seq<TemplateData>, c: TemplateData)
    ensures RenderAll(cfg, render, cs + [c]) == RenderAll(cfg, render, cs) + Emit(cfg, render(c))
    decreases |cs|
  {
    if cs != [] {
      assert (cs + [c])[1..] == cs[1..] + [c];
      RenderAllAppend(cfg, render, cs[1..], c);
    }
  }

  /**
   * The row loop writes, for each record before the first non-record
   * outcome, the rendering of its context followed by its delimiters, and
   * nothing else; it ends as `StopStatus` says.
   */
  lemma {:induction false} RowsFromTranscript(cfg: Config, header: seq<string>, outcomes: seq<ReadResult>, n: int,
                                               name: map<string, string>, render: TemplateData -> seq<Byte>)
    ensures RowsFrom(cfg, header, outcomes, n, name, render)
         == Outcome(RenderAll(cfg, render, Contexts(cfg.noHeader, header, name, LeadingRecords(outcomes), n)),
                    StopStatus(outcomes))
    decreases |outcomes|
  {
    if outcomes != [] && outcomes[0].Record? {
      var fields := outcomes[0].fields;
      var name1 := RowNames(cfg.noHeader, header, name, fields);
      RowsFromTranscript(cfg, header, outcomes[1..], n + 1, name1, render);
      var rows := LeadingRecords(outcomes);
      assert rows == [fields] + LeadingRecords(outcomes[1..]);
      ContextsCons(cfg.noHeader, header, name, fields, rows[1..], n);
    }
  }

  /**
   * A compiled run: an empty input or end of input at the header read is
   * success with no output; a failed header read is status 6 with no output;
   * otherwise the output is the records after the header (all records under
   * --no-header), up to the first non-record outcome, each rendered against
   * its context and followed by its delimiters, and the run ends as
   * `StopStatus` says.
   */
  lemma RunTranscript(cfg: Config, outcomes: seq<ReadResult>, render: TemplateData -> seq<Byte>)
    ensures var r := RunSpec(cfg, true, outcomes, render);
            if !cfg.noHeader && (outcomes == [] || outcomes[0].EndOfFile?) then r == Outcome([], Success)
            else if !cfg.noHeader && outcomes[0].ReadError? then r == Outcome([], HeaderReadError)
            else
              var header := if cfg.noHeader then [] else outcomes[0].fields;
              var data := if cfg.noHeader then outcomes else outcomes[1..];
              r == Outcome(RenderAll(cfg, render, Contexts(cfg.noHeader, header, map[], LeadingRecords(data), 0)),
                           StopStatus(data))
  {
    if cfg.noHeader {
      RowsFromTranscript(cfg, [], outcomes, 0, map[], render);
    } else if outcomes != [] && outcomes[0].Record? {
      RowsFromTranscript(cfg, outcomes[0].fields, outcomes[1..], 0, map[], render);
    }
  }

  /**
   * The context of the `i`-th data record: `N` is `i`; `Index` is the
   * record's fields; the keys of `Name` are the header names bound by this
   * record or an earlier one; a name this record binds holds the field at
   * its last bound position; every other name is empty.
   */
  lemma ContextAt(noHeader: bool, header: seq<string>, rows: seq<seq<string>>, i: int)
    requires 0 <= i < |rows|
    ensures var c := Contexts(noHeader, header, map[], rows, 0)[i];
            && c.N == i
            && c.Index == rows[i]
            && c.Name.Keys == (if noHeader then {} else Mapped(header, rows[..i + 1]))
            && (forall k :: k in c.Name && (noHeader || k !in Covered(header, rows[i])) ==> c.Name[k] == "")
            && (!noHeader ==> forall j :: IsLastPosition(header, rows[i], j) ==>
                  header[j] in c.Name && c.Name[header[j]] == rows[i][j])
  {
    NameAfterKeys(noHeader, header, map[], rows[..i + 1]);
    NameAfterValues(noHeader, header, map[], rows[..i + 1]);
  }

  /**
   * Under --no-header no record is taken as the header, `Name` is empty for
   * every record, and the first record is rendered as data with `N = 0`.
   */
  lemma NoHeaderRun(cfg: Config, outcomes: seq<ReadResult>, render: TemplateData -> seq<Byte>)
    requires cfg.noHeader
    ensures var cs := Contexts(true, [], map[], LeadingRecords(outcomes), 0);
            && RunSpec(cfg, true, outcomes, render) == Outcome(RenderAll(cfg, render, cs), StopStatus(outcomes))
            && (forall i :: 0 <= i < |cs| ==> cs[i].Name == map[])
            && (outcomes != [] && outcomes[0].Record? ==> cs != [] && cs[0] == TemplateData(0, map[], outcomes[0].fields))
  {
    RunTranscript(cfg, outcomes, render);
    var rows := LeadingRecords(outcomes);
    var cs := Contexts(true, [], map[], rows, 0);
    forall i | 0 <= i < |cs|
      ensures cs[i].Name == map[]
    {
      ContextAt(true, [], rows, i);
    }
  }

  /**
   * `run`, from the CSV reader on: reads the header unless --no-header, then
   * hands over to the row loop; a read error at the header ends the run
   * with status 6 and end of input there ends it with success, in both
   * cases with nothing written.
   */
  method Run(cfg: Config, compiled: bool, src: RecordReader, render: TemplateData -> seq<Byte>, out: Writer)
    returns (status: ExitStatus)
    modifies src, out
    ensures status == RunSpec(cfg, compiled, old(src.pending), render).status
    ensures out.written == old(out.written) + RunSpec(cfg, compiled, old(src.pending), render).output
    ensures !compiled ==> status.Code() == 4 && out.written == old(out.written)
    ensures compiled && !cfg.noHeader && old(src.pending) != [] && old(src.pending)[0].ReadError?
            ==> status.Code() == 6 && out.written == old(out.written)
    ensures compiled && !cfg.noHeader && (old(src.pending) == [] || old(src.pending)[0].EndOfFile?)
            ==> status.Code() == 0 && out.written == old(out.written)
  {
    if !compiled {
      return TemplateParseError;
    }
    var header: seq<string> := [];
    if !cfg.noHeader {
      var r := src.Read();
      match r
      case ReadError => return HeaderReadError;
      case EndOfFile => return Success;
      case Record(fields) => header := fields;
    }
    status := RenderRows(cfg, header, src, render, out);
  }

  /**
   * The row loop of `run`: each record read resets `Name` with `zeromap`,
   * rebinds it with `headertomap` unless --no-header, is rendered against
   * `{N, Name, Index}` and followed by its delimiters, and counts one;
   * end of input ends the loop with success, a read error with status 7,
   * and what was written before stays written.
   */
  method RenderRows(cfg: Config, header: seq<string>, src: RecordReader, render: TemplateData -> seq<Byte>, out: Writer)
    returns (status: ExitStatus)
    modifies src, out
    ensures status == RowsFrom(cfg, header, old(src.pending), 0, map[], render).status
    ensures out.written == old(out.written) + RowsFrom(cfg, header, old(src.pending), 0, map[], render).output
  {
    ghost var spec := RowsFrom(cfg, header, src.pending, 0, map[], render);
    var n := 0;
    var name := new NameMap();
    var index: seq<string>;
    while true
      invariant out.written + RowsFrom(cfg, header, src.pending, n, name.entries, render).output
             == old(out.written) + spec.output
      invariant RowsFrom(cfg, header, src.pending, n, name.entries, render).status == spec.status
      decreases |src.pending|
    {
      ghost var before, written, rest := name.entries, out.written, src.pending;
      var r := src.Read();
      match r
      case ReadError => return RowReadError;
      case EndOfFile => return Success;
      case Record(fields) =>
        index := fields;
        ZeroMap(name);
        if !cfg.noHeader {
          HeaderToMap(header, name, index);
        }
        assert name.entries == RowNames(cfg.noHeader, header, before, fields);
        var chunk := render(TemplateData(n, name.entries, index));
        out.Write(chunk);
        n := n + 1;
        ghost var newline: seq<Byte> := [];
        if cfg.newLine {
          out.Write([Newline]);
          newline := [Newline];
        }
        ghost var nul: seq<Byte> := [];
        if cfg.zeroDelim {
          out.Write([Nul]);
          nul := [Nul];
        }
        ghost var tail := RowsFrom(cfg, header, src.pending, n, name.entries, render);
        assert rest[0] == Record(fields) && rest[1..] == src.pending;
        assert RowsFrom(cfg, header, rest, n - 1, before, render) == Outcome(Emit(cfg, chunk) + tail.output, tail.status);
        assert out.written == ((written + chunk) + newline) + nul;
        assert Emit(cfg, chunk) == (chunk + newline) + nul;
        AppendAssoc(written + chunk, newline, nul);
        AppendAssoc(written, chunk, newline + nul);
        AppendAssoc(chunk, newline, nul);
        AppendAssoc(written, Emit(cfg, chunk), tail.output);
    }
  }

  lemma AppendAssoc<T>(a: seq<T>, b: seq<T>, c: seq<T>)
    ensures (a + b) + c == a + (b + c)
  {
  }
}
