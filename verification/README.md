# ChucK stdout host: control plane model

This project models the control plane of `chuck-stdout`. That program embeds
the ChucK engine, renders audio blocks in a loop and writes them to standard
output as 32-bit samples. It takes commands through the named pipe
`/tmp/chuck_cmd`. The model covers:

- **The command record** (`Commands.CommandText`). One `read` returns at most
  255 bytes. The last byte read is overwritten with NUL, which drops the
  newline a writer such as `echo` adds. The C string then ends at the first
  NUL. Characters stand for bytes: every character read is below 256
  (`Commands.FitsBuffer`).
- **Classification** (`Commands.Classify`). The branches are tried in a fixed
  order:
  - exact `exit`;
  - `{code}`;
  - a leading `+` (the payload starts at index 2);
  - a leading `-` (the id after the first space, read by `std::stoul`);
  - a leading `^`;
  - the `get_vm_start_time()` query;
  - anything else is unrecognized.
- **Dispatch** (`Commands.Dispatch`, `Commands.CheckCommands`). This covers the
  compile calls made, the messages handed to the VM, the echoed shred id, the
  exit flag and whether the pipe backlog is drained. Three handlers return
  before the drain: a failed `+` compile, a `-` without a space and a `-` with
  a bad id.
- **`std::stoul` and `atoi`** (`Numeric`). These follow `strtoul` and `atoi` as
  section 7.22.1 of ISO C11 defines them:
  - leading white space is skipped and an optional sign is read;
  - in radix 16 an optional `0x` is skipped;
  - the longest run of digits is converted, leading zeros included;
  - `strtoul` fails when there are no digits or the value is above `ULONG_MAX`.
  `unsigned long` is taken to be 64 bits wide.
- **The command line** (`Cli.ParseFrom`, `Cli.Startup`). The options are `-r`,
  `-b`, `-c` and `-l` with a value, and `-h`. Unknown options are handled. A
  `-l` level outside 0..7 is reset to 0. The last argument is the script when
  it is a non-empty name followed by `.ck`.
- **The logger gate** (`Logging.ChuckLogger`). The program defines
  `chuck_logger` but never registers it with the engine. `main` only sets the
  engine log level and the chout/cherr callbacks (:337-339). The model states
  what the function would do if it were called.
- **The chugin directory filter** (`Chugins.LoadAllChugins`).
- **The main loop** (`HostLoop.RunLoop`, `HostLoop.RunHost`). It is a fold over
  a trace. Each step of the trace gives what `vm_running()` answers, what the
  pipe read returns and what the engine replies to this iteration's compile
  call.

Two command texts stop the program abnormally. The model returns them as
explicit `Commands.Fault` values rather than excluding them:

- An empty command text (a write of just a newline) reaches `cmd.front()` on an
  empty string (:136). That is undefined behaviour.
- The one-character command `+` makes `substr(2)` throw `std::out_of_range`
  (:153). Nothing catches it, so `std::terminate` ends the process.

`HostLoop.RunHost` ends the process with `UndefinedBehaviour` in the first case
and with `Terminated` in the second.

Likewise, a negative message level that passes the logger gate would index the
prefix table out of range (`Logging.LogAction.PrefixOutOfRange`).

Some behaviour of the program that is easy to misread:

- `+` and `-` are recognised by their first character alone
  (src/host-examples/chuck-stdout.cpp:150 and :182). The comment `// remove "+ "`
  at :153 suggests a two-character prefix, but `substr(2)` drops whatever the
  second character is.
- A `-` command without a space, or with an id `std::stoul` rejects, prints an
  error and returns before the drain (:186-189, :199-202).
- An add is handed to `process_msg` and handled at once (:179). A remove and a
  status request are queued with `queue_msg` (:210, :224).
- The iteration that receives `exit` still renders and writes its block
  (:379-390).
- The pipe is opened in blocking mode (:331). The comment at :236 calls the
  drain a non-blocking read, but the drain loop at :238 reads that same
  blocking descriptor.

## Model

| member | source | states |
|---|---|---|
| Text.TakeUntilNul | src/host-examples/chuck-stdout.cpp:128 | the C string built from the buffer is the longest NUL-free prefix: a prefix of the bytes, without NUL, ending at a NUL or at the end |
| Text.TakeUntilNulOfTerminated | src/host-examples/chuck-stdout.cpp:127-128 | a NUL-free text followed by NUL and anything reads back as that text |
| Text.TakeUntilNulOfPlain | src/host-examples/chuck-stdout.cpp:128 | a NUL-free text reads back whole |
| Text.Find | src/host-examples/chuck-stdout.cpp:185 | `find(' ')` returns the first index holding a space, or none exactly when there is no space |
| Commands.CommandText | src/host-examples/chuck-stdout.cpp:122-128 | the command is at most 254 chars, is a prefix of the first n-1 bytes read, holds no NUL, and is cut short only at a NUL |
| Commands.Classify | src/host-examples/chuck-stdout.cpp:130-234 | exactly one branch handles each text, in the source's order: exit iff the text is `exit`; a fault iff the text is empty or exactly `+`; eval text is `{`+code+`}`; add payload is the text from index 2; remove branch iff the text starts with `-`; status iff it starts with `^`; start-time iff it starts with the query; an unrecognized text matches none of these |
| Commands.ParseRemove | src/host-examples/chuck-stdout.cpp:185-202 | a remove without a space is a format error, and every remove text yields a removal, a format error or a bad id; which one, and of what token, is stated by `CommandLemmas.ParseRemoveAfterFirstSpace` |
| Commands.ParseShredId | src/host-examples/chuck-stdout.cpp:194-198 | a token that converts holds a hex digit, and a decimal digit when it does not start with the lower-case `0x`; `CommandLemmas.ShredIdOfDigitRun` and `CommandLemmas.ShredIdOfHexRun` state that any digit run, leading zeros included, is read as its value in the chosen radix |
| Commands.Dispatch | src/host-examples/chuck-stdout.cpp:130-238 | the drain runs iff the handler falls through; exit sets the stop flag; the shred id becomes the VM's last id only after a successful eval; eval and add make their compile call on the eval code or add payload; a message goes out iff add compiled, remove parsed or status was asked, and it carries the payload or id |
| Commands.CheckCommands | src/host-examples/chuck-stdout.cpp:121-126 | a read of no bytes or an error does nothing at all, not even the drain; otherwise the command handled is the classification of the record text and a fault is passed through |
| CommandLemmas.ReadBackTerminated | src/host-examples/chuck-stdout.cpp:123-128 | a NUL-free text of up to 254 chars written with one extra trailing byte is read back exactly |
| CommandLemmas.ReadBackCutAtNul | src/host-examples/chuck-stdout.cpp:127-128 | bytes after an embedded NUL never reach the command |
| CommandLemmas.PollOfWrite | src/host-examples/chuck-stdout.cpp:121-238 | polling a terminated write dispatches the classification of the written text |
| CommandLemmas.ExitIsExact | src/host-examples/chuck-stdout.cpp:130 | `exit` followed by anything is unrecognized |
| CommandLemmas.EvalRoundTrip | src/host-examples/chuck-stdout.cpp:136-141 | `{`+code+`}` evaluates exactly code, whatever code starts with |
| CommandLemmas.BracedDashIsEval | src/host-examples/chuck-stdout.cpp:136-139 | `{-1}` is an eval of `-1`, not a remove |
| CommandLemmas.AddRoundTrip | src/host-examples/chuck-stdout.cpp:150-153 | `+`, any second char and a payload is an add of exactly that payload |
| CommandLemmas.ClassifyDash | src/host-examples/chuck-stdout.cpp:182 | every text starting with `-` goes to the remove branch |
| CommandLemmas.ParseRemoveAfterFirstSpace | src/host-examples/chuck-stdout.cpp:185-202 | for any text without a space before the first space, the id token is everything after that space (later spaces included): a parsed id is removed, a rejected token is a bad id |
| CommandLemmas.RemoveAfterFirstSpace | src/host-examples/chuck-stdout.cpp:182-202 | a `-` followed by any space-free text and a space removes the id the rest parses to, or reports the rest as a bad id |
| CommandLemmas.RemoveAfterFlagExample | src/host-examples/chuck-stdout.cpp:182-202 | `-x 42` removes shred 42 |
| CommandLemmas.ParseRemoveAfterSpace | src/host-examples/chuck-stdout.cpp:185-202 | with nothing between `-` and the space, the id token is the text after the space |
| CommandLemmas.ShredIdOfDecimal | src/host-examples/chuck-stdout.cpp:194-198 | the decimal numeral of n is read as n up to ULONG_MAX and is out of range above it |
| CommandLemmas.ShredIdOfDigitRun | src/host-examples/chuck-stdout.cpp:194-198 | any decimal digit run, leading zeros included, is read in radix 10 as the value of the whole run, up to ULONG_MAX |
| CommandLemmas.ShredIdOfHexRun | src/host-examples/chuck-stdout.cpp:194-198 | `0x` followed by any hex digit run is read in radix 16 as the value of the whole run, up to ULONG_MAX |
| CommandLemmas.RemoveLeadingZerosExample | src/host-examples/chuck-stdout.cpp:182-210 | `- 007` removes shred 7 |
| CommandLemmas.HexLeadingZerosId | src/host-examples/chuck-stdout.cpp:194-195 | `0x002a` is read as 42 |
| CommandLemmas.RemoveHexLeadingZerosExample | src/host-examples/chuck-stdout.cpp:182-210 | `- 0x002a` removes shred 42 |
| CommandLemmas.DecimalNotHexMarked | src/host-examples/chuck-stdout.cpp:194 | a decimal numeral never selects radix 16 |
| CommandLemmas.RemoveDecimalRoundTrip | src/host-examples/chuck-stdout.cpp:191-202 | `- n` removes n for every n up to ULONG_MAX, and a larger n is a bad id |
| CommandLemmas.RemoveHexRoundTrip | src/host-examples/chuck-stdout.cpp:194-195 | `- 0x` followed by the hex digits of n removes n |
| CommandLemmas.RemoveHexExample | src/host-examples/chuck-stdout.cpp:194-210 | `- 0x2a` removes shred 42 |
| CommandLemmas.RemoveWithoutDigits | src/host-examples/chuck-stdout.cpp:196-201 | a token without decimal digits is a bad id |
| CommandLemmas.RemoveWithoutSpace | src/host-examples/chuck-stdout.cpp:185-189 | a `-` command without a space is a format error |
| CommandLemmas.EvalUpdatesShredIdOnlyOnSuccess | src/host-examples/chuck-stdout.cpp:141-147 | a successful eval takes the VM's last id, a failed one leaves the id unchanged, and neither sends a message |
| Numeric.StrToUL | src/host-examples/chuck-stdout.cpp:194-198 | a successful conversion needs a digit of the radix somewhere in the text |
| Numeric.Convert | src/host-examples/chuck-stdout.cpp:194-198 | a conversion succeeds only when the digits start at once |
| Numeric.ValueOfToDigits | src/host-examples/chuck-stdout.cpp:194-198 | the digits of n denote n in either radix |
| Numeric.DigitSpanOfDigits | src/host-examples/chuck-stdout.cpp:194-198 | digits followed by a non-digit form the whole digit run |
| Numeric.DigitIsNotSpaceOrSign | src/host-examples/chuck-stdout.cpp:194-198 | a digit is neither white space, a sign nor the `x` of a prefix |
| Numeric.DigitsThenRest | src/host-examples/chuck-stdout.cpp:194-198 | the digit run of a numeral and its tail is the numeral, and its value is n |
| Numeric.ConvertOfDigits | src/host-examples/chuck-stdout.cpp:194-198 | converting the digits of n gives n, or n negated modulo 2^64, and fails above ULONG_MAX |
| Numeric.SubjectOfDigits | src/host-examples/chuck-stdout.cpp:194-198 | a numeral followed by something that cannot extend it has no white space, sign or prefix to skip |
| Numeric.StrToULOfDigits | src/host-examples/chuck-stdout.cpp:194-198 | a numeral of n followed by something that cannot extend it converts to n up to ULONG_MAX, and is out of range above it |
| Numeric.StrToULOfDigitRun | src/host-examples/chuck-stdout.cpp:194-198 | any run of digits, leading zeros included, followed by something that cannot extend it, converts to the value of the whole run up to ULONG_MAX and is out of range above it |
| Numeric.StrToULOfLeadingZeros | src/host-examples/chuck-stdout.cpp:197 | `007` converts to 7 |
| Numeric.ConvertOfDigitRun | src/host-examples/chuck-stdout.cpp:194-198 | the conversion of any digit run followed by a non-digit is the value of the whole run, or out of range above ULONG_MAX |
| Numeric.SubjectOfPrefixedHex | src/host-examples/chuck-stdout.cpp:194-195 | in radix 16 a `0x` in front of a hex digit is skipped, and nothing else is |
| Numeric.StrToULOfPrefixedHexRun | src/host-examples/chuck-stdout.cpp:194-195 | `0x` followed by any hex digit run, leading zeros included, converts to the value of the whole run |
| Numeric.StrToULOfPrefixedHex | src/host-examples/chuck-stdout.cpp:194-195 | in radix 16 a `0x` before the digits is skipped |
| Numeric.StrToULOfBareHexPrefix | src/host-examples/chuck-stdout.cpp:194-195 | `0x` not followed by a hex digit converts as 0 without failing |
| Numeric.StrToULOfNegated | src/host-examples/chuck-stdout.cpp:197 | a minus sign gives the value negated modulo 2^64 |
| Numeric.StrToULWithoutDigits | src/host-examples/chuck-stdout.cpp:196-201 | a text with no digit fails with no conversion |
| Numeric.StrToULSkipsSpace | src/host-examples/chuck-stdout.cpp:197 | leading white space does not change the result |
| Numeric.Atoi | src/host-examples/chuck-stdout.cpp:45-51 | a non-zero result needs a decimal digit in the text; `Numeric.AtoiOfDigits` and `Numeric.AtoiWithoutDigits` state the values read |
| Numeric.AtoiOfDigits | src/host-examples/chuck-stdout.cpp:45-51 | `atoi` reads back n and -n from their numerals |
| Numeric.AtoiWithoutDigits | src/host-examples/chuck-stdout.cpp:45-51 | `atoi` of a text without digits is 0 |
| Cli.IsOption | src/host-examples/chuck-stdout.cpp:53 | an argument is an option iff it is a `-` followed by anything |
| Cli.TakesValue | src/host-examples/chuck-stdout.cpp:44-50 | exactly the two-character options `-r`, `-b`, `-c` and `-l` take a value, and `-h` is not among them; `CliLemmas.ValueIsConsumed` and `CliLemmas.DanglingValueOption` state what happens with and without the value |
| Cli.SetOption | src/host-examples/chuck-stdout.cpp:44-52 | each value option sets only its own field to `atoi` of the value; `-l` keeps levels 0..7 and turns any other level into 0 |
| Cli.ParseFrom | src/host-examples/chuck-stdout.cpp:38-60 | the result code is 0, 1 or -1; 0 only if `-h` is among the arguments; -1 only if some argument other than `-h` starts with `-`; without any `-` argument the configuration is untouched and the code is 1; a valid log level stays valid |
| Cli.ParseArgs | src/host-examples/chuck-stdout.cpp:38-60 | starting from the defaults, the resulting log level is always in 0..7 |
| Cli.HasScript | src/host-examples/chuck-stdout.cpp:363-364 | the last argument is a script iff it is a non-empty stem followed by `.ck` |
| Cli.Startup | src/host-examples/chuck-stdout.cpp:326-371 | a parse result of 0 or -1 is what `main` returns; a negative block length terminates the process; a script that does not compile makes `main` return 1; otherwise the host serves with the parsed configuration and the script |
| CliLemmas.ParseCompose | src/host-examples/chuck-stdout.cpp:39-59 | arguments that parse to 1 were consumed to their end, so what follows is parsed from the configuration they left |
| CliLemmas.HelpStopsParsing | src/host-examples/chuck-stdout.cpp:41-43 | `-h` in option position returns 0 and ignores everything after it |
| CliLemmas.UnknownOptionStops | src/host-examples/chuck-stdout.cpp:53-56 | an unknown option returns -1 at once |
| CliLemmas.DanglingValueOption | src/host-examples/chuck-stdout.cpp:44-56 | a value option in last position returns -1 |
| CliLemmas.ValueIsConsumed | src/host-examples/chuck-stdout.cpp:44-52 | a value option consumes the next argument even if it starts with `-` |
| CliLemmas.RateSwallowsHelp | src/host-examples/chuck-stdout.cpp:44-45 | `-r -h` sets the rate to 0 and returns 1 |
| CliLemmas.LogLevelOption | src/host-examples/chuck-stdout.cpp:50-52 | `-l n` gives level n for n up to 7 and 0 otherwise |
| CliLemmas.NegativeLogLevel | src/host-examples/chuck-stdout.cpp:50-52 | a negative `-l` level gives 0 |
| CliLemmas.LaterOptionWins | src/host-examples/chuck-stdout.cpp:39-52 | of two settings of one option the later one is kept |
| CliLemmas.ScriptOnly | src/host-examples/chuck-stdout.cpp:363-371 | a lone `.ck` argument starts the host with the defaults and that script, or exits with 1 when it does not compile |
| Logging.ChuckLogger | src/host-examples/chuck-stdout.cpp:249-266 | if the function were called, a message would be printed iff the host level is not 0 and the message level is between 0 and the host level; a negative level that passes the gate is out of the prefix table; the line is `[ChucK] `, the level tag and the message |
| Logging.SilentAtZero | src/host-examples/chuck-stdout.cpp:253 | level 0 silences everything |
| Logging.GateIsMonotone | src/host-examples/chuck-stdout.cpp:253-254 | raising the host level never silences a printed message |
| Chugins.IsChugin | src/host-examples/chuck-stdout.cpp:288-289 | a name is a chugin iff it is a non-empty stem followed by `.chug` |
| Chugins.ChuginPaths | src/host-examples/chuck-stdout.cpp:285-293 | every path is dir/name for a chugin entry, and every chugin entry has its path |
| Chugins.ChuginPathsAppend | src/host-examples/chuck-stdout.cpp:285-291 | entry order is preserved |
| Chugins.SuffixAloneIsNotChugin | src/host-examples/chuck-stdout.cpp:288-289 | the bare name `.chug` is not a chugin, and a one-letter stem before it is |
| Chugins.LoadAllChugins | src/host-examples/chuck-stdout.cpp:275-300 | nothing is set when the directory cannot be opened; the list is set iff some entry is a chugin, and it is then the chugin paths in entry order |
| HostLoop.RunLoop | src/host-examples/chuck-stdout.cpp:378-390 | each iteration writes exactly one block of `frame` samples, and at most one iteration runs per trace step |
| HostLoop.LoopStopsWhere | src/host-examples/chuck-stdout.cpp:379-390 | every rendered iteration saw a running VM and a handled command; only the last may carry `exit`; the loop stops at a halted VM, after the `exit` iteration, or at a fault |
| HostLoop.ExitWritesOneMoreBlock | src/host-examples/chuck-stdout.cpp:379-390 | `exit` received in iteration k ends the loop after exactly k+1 blocks |
| HostLoop.HaltStopsAtOnce | src/host-examples/chuck-stdout.cpp:379 | a VM that stops at step k ends the loop after k blocks |
| HostLoop.IdlePolling | src/host-examples/chuck-stdout.cpp:123-126 | with nothing written, every step renders a block and the state and messages stay untouched |
| HostLoop.ExitStatus | src/host-examples/chuck-stdout.cpp:327 | the status a parent sees is the value `main` returns reduced to eight bits, so -1 is seen as 255 |
| HostLoop.RunHost | src/host-examples/chuck-stdout.cpp:320-398 | blocks are written only after a successful start-up; the exit status is 0, 1 or 255, and 255 exactly when `parse_args` returns -1, that is, when an unknown or dangling option is met in option position before any `-h`; a clean exit with status 0 follows a parse result of 1, or of 0 with no blocks; undefined behaviour (an empty command) and a still-running host both need a successful start-up; samples are blocks times buffer size times channels |
| HostLoop.UnknownOptionExitStatus | src/host-examples/chuck-stdout.cpp:53-56 | an unknown option ends the process with exit status 255 before any block |
| HostLoop.EmptyLineScenario | src/host-examples/chuck-stdout.cpp:121-136 | an empty line written to the pipe in the first iteration is undefined behaviour before any block is written |
| HostLoop.ExitScenario | src/host-examples/chuck-stdout.cpp:379-398 | with no options, `exit` in the first iteration stops the host with status 0 after one block of 512 samples |

## Left out

- Named pipe lifecycle (`mkfifo`, the blocking `open`, `close`, `unlink`): OS I/O. Each read is an input of the trace. The descriptor is blocking, so a read can block while a writer keeps the pipe open; the model only sees what each read returned.
- The drain loop's own reads: OS I/O, modelled only as the `drained` flag.
- `vm_msg_cb`: formatting of an engine-owned status report, including a floating-point spork-time division and the deletion of the message and the status. The model records only that a STATUS query is queued.
- The float to `int32_t` sample conversion: floating point. The model counts the samples written per block, not their values.
- `extract_args` is not part of this model. The `+` payload is kept as one opaque string for both the compile call and the ADD message.
- The ChucK engine (`compileCode`, `compileFile`, `process_msg`, `queue_msg`, `run`, `vm_running`, `setParam`, `init`, `start`, `setLogLevel`, the chout and cherr callbacks): a foreign library. The model uses a per-iteration boolean compile reply, a last-id reply and a `vm_running` answer.
- `get_time` and `vm_start_time`: wall clock. The start-time query is classified but its value is not modelled.
- `show_usage` and every diagnostic text except the logger line.
- Numeric.Atoi: does not model overflow of `int`, which is undefined behaviour in C. Values are unbounded.
- Cli.Startup: does not model `bad_alloc` for a buffer too large to allocate. It also leaves out the chugin scan, which does not affect the start-up outcome.
