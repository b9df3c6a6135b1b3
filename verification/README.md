# csveach render loop, modelled in Dafny

csveach reads CSV records and renders one Go `text/template` per record. This
project models its core: the streaming render loop of `run`, plus its two helpers
`headertomap` and `zeromap`. Unless `--no-header` is set, the first record is
taken as the header. Each later record is handled in five steps:

1. The `Name` map is reset in place: every value becomes `""` and no key is removed.
2. The header names are bound to the record's fields by position.
3. The template is executed against `{N, Name, Index}`.
4. The counter `N` goes up by one.
5. A newline is written if `--new-line` is set, then a NUL byte if `--zero` is set.

End of input ends the run with success. A read error ends it with exit status 6
when it happens at the header and 7 when it happens at a record. A template that
did not compile ends it with status 4.

Modules:

- `Values` (values.dfy): bytes, read outcomes, `TemplateData`, options, exit statuses.
- `NameBinding` (name_binding.dfy): the `Name` map as a class. `ZeroMap` and
  `HeaderToMap` change it in place. They are proved against the functions `Zeroed`
  and `Bind`, and lemmas about those functions state what the helpers promise.
- `Streams` (streams.dfy): the CSV reader as a cursor over the outcomes of its
  successive reads, and the output as an append-only byte sink.
- `RenderLoop` (render_loop.dfy): `RunSpec` and `RowsFrom` give the run as a function
  of the read outcomes. `Run` and `RenderRows` are the loop itself, over a reader and
  a writer, and are proved to write exactly what `RunSpec` gives. The lemmas describe
  that output record by record.

Two engines are abstracted:

- The CSV tokenizer is given as the sequence of outcomes its `Read` calls return
  (`Record(fields)`, `EndOfFile`, `ReadError`). After the last outcome, every read
  gives end of input.
- Template execution is a parameter `render: TemplateData -> seq<Byte>`: the bytes
  `Execute` writes for a context. The code discards the error that `Execute`
  returns. So a failing execution only shows in those bytes: the run goes on, and
  `N` still counts that record.

Two behaviours of the code are worth spelling out:

- `N` counts every record read, even one whose execution failed, because the error
  from `Execute` is discarded (main.go:131-132).
- `Name` starts empty (main.go:115) and only gains the header names that some record
  has reached so far. It is not pre-filled with every header name. As long as all
  records have the header's length (see the reader's field-count check under
  "## Left out"), every header name is present from the first record on. The model
  also admits records of other lengths. For those, a header name beyond every record
  so far is absent rather than `""` (`NameAfterKeys`, `ContextAt`).

## Model

| member | source | states |
|---|---|---|
| `NameBinding.NameMap.constructor` | main.go:115 | `Name` starts as an empty map |
| `NameBinding.Zeroed` | main.go:152-156 | after `zeromap`, the key set is unchanged and every value is `""` |
| `NameBinding.Bind` | main.go:144-150 | the map `headertomap` leaves, as the in-order loop over `line`; its own contract says no key is removed; `BindKeys`, `BindUntouched` and `BindLastWins` describe it completely |
| `NameBinding.ZeroedIdempotent` | main.go:152-156 | applying `zeromap` twice gives the same map as applying it once |
| `NameBinding.ZeroMap` | main.go:152-156 | the in-place loop over the keys, in any order, keeps exactly the same keys and leaves every value `""` |
| `NameBinding.HeaderToMap` | main.go:144-150 | the in-place loop over the record's positions leaves the map that `Bind` describes |
| `NameBinding.BindKeys` | main.go:144-150 | binding never removes a key; the only keys it adds are `columns[i]` for `i < min(len(columns), len(line))`, so fields at positions at or past `len(columns)` never enter |
| `NameBinding.BindUntouched` | main.go:144-150 | a key that no bound position names keeps its presence and its value |
| `NameBinding.BindLastWins` | main.go:144-150 | `m[columns[j]] == line[j]` for a bound position `j` with no later bound duplicate of its name: the later position wins |
| `NameBinding.RowNames` | main.go:126-129 | the `Name` map for one record: `zeromap`, then `headertomap` unless `--no-header`; no key is ever removed, and under `--no-header` every value is `""` with the key set unchanged (the full description is `RowNamesNoLeak`) |
| `NameBinding.RowNamesNoLeak` | main.go:126-129 | after one record, earlier keys stay; a name this record does not bind is `""`, never a value from an earlier record; a name it binds holds its field |
| `NameBinding.NameAfterKeys` | main.go:115-129 | across records, `Name`'s key set only grows, and only to header names bound so far; under `--no-header` it gains nothing |
| `NameBinding.NameAfterValues` | main.go:116-129 | after any number of records, the values of `Name` depend on the current record alone |
| `Streams.RecordReader.Read` | main.go:117 | a read gives the next outcome and consumes it; past the end it gives end of input |
| `Streams.Writer.Write` | main.go:131-140 | output is only appended to, so what was written stays written |
| `RenderLoop.Emit` | main.go:131-140 | a record's output is the rendered bytes, then exactly one newline if `--new-line`, then exactly one NUL byte if `--zero`, in that order |
| `RenderLoop.RowsFrom` | main.go:114-141 | the row loop as a function of the outcomes still to come, the counter and the previous `Name`; it only ever ends with exit code 0 or 7 (the record-by-record description is `RowsFromTranscript`) |
| `RenderLoop.RunSpec` | main.go:66-141 | a whole run: exit code 4 exactly when the template did not compile, 6 exactly when the header read (taken only without `--no-header`) is a read error, and no output in either case |
| `RenderLoop.RenderAllAppend` | main.go:131-140 | the last record's output is followed by its delimiters like every other record's |
| `RenderLoop.LeadingRecordsStop` | main.go:116-124 | the loop renders exactly the records before the first non-record outcome (the outcome after them, if any, is not a record); it ends with status 7 exactly when that outcome is a read error, and with success otherwise |
| `RenderLoop.ContextsCons` | main.go:126-132 | the first record's context has counter `n0` and the rebuilt `Name`; the later records follow with the counter one higher and that `Name` carried over |
| `RenderLoop.RowsFromTranscript` | main.go:114-141 | the row loop's output is the concatenation, over the records read, of each record's rendered context followed by its delimiters; it writes nothing else |
| `RenderLoop.RunTranscript` | main.go:101-141 | empty input or end of input at the header read gives no output and success; a header read error gives no output and status 6; otherwise the output is every data record's rendering, in input order |
| `RenderLoop.ContextAt` | main.go:114-132 | the context of the `i`-th data record has `N == i`, `Index` equal to its fields, `Name` keys equal to the header names bound so far, bound names holding this record's fields and every other name `""` |
| `RenderLoop.NoHeaderRun` | main.go:101-102 | under `--no-header` no record is consumed as a header, `Name` is empty for every record, and the first record is rendered with `N == 0` and `Index` equal to its fields |
| `RenderLoop.Run` | main.go:66-112 | a template that did not compile gives status 4 and no output (the file opening in between is not modelled); the header read behaves as in `RunTranscript`; the whole run writes exactly `RunSpec`'s output and ends with its status |
| `RenderLoop.RenderRows` | main.go:114-141 | the loop with in-place `zeromap`/`headertomap`, execution, `N++` and delimiter writes appends exactly `RowsFrom`'s output and returns its status (7 at a row read error, with earlier output kept) |

## Left out

- Flag and argument parsing (`configure`, main.go:48-64) is left out. This includes exit status 1 for a missing template.
- Opening the input file, creating the output file and choosing stdin/stdout (main.go:74-96) are left out. This includes exit statuses 2 and 3.
- Template parsing and execution inside `text/template` are left out. Compilation is a boolean, and execution is the `render` parameter.
- The CSV tokenizer of `encoding/csv` is left out. It is replaced by the sequence of read outcomes.
- The reader's field-count check is not imposed. The reader keeps the default `FieldsPerRecord` of 0 (main.go:98-99). So a record whose field count differs from the first record's is returned with an error, and `run` exits with 7 (main.go:117-122). The outcome sequences of the model may contain `Record`s of any length, so the model admits more inputs than the program produces. On real input, a record shorter or longer than the header appears as a `ReadError` outcome.
- `ReuseRecord` buffer aliasing (main.go:99) is left out, because records are immutable values. The header copy at main.go:111 therefore amounts to keeping the first record's fields.
- Write errors on the output stream are left out. The code ignores them, and `Writer.Write` always appends.
- Messages to stderr, `defer f.Close()` and the process exit are left out. `Run` returns the exit status instead of exiting.
- The map's size hint in `make(map[string]string, len(header))` is left out. It has no visible effect.
- `int` overflow of `N` is not modelled, because `N` is an unbounded integer.
