# avo printer: the generated-code warning

avo writes Go assembly and Go stub files, and puts a one-line warning at the top of each:

    Code generated by <identity>. DO NOT EDIT.

The `printer.Config` value holds the two inputs to that line. `Argv` is the command line
that ran the generator. `Name` is the generator's name. `Config.GeneratedWarning()`
builds the line, and `printer.NewDefaultConfig()` gives the default configuration.

The precedence rule:

- When `Argv` is non-empty, the identity is `command: ` followed by the arguments joined
  with single spaces. `Name` is then ignored.
- Otherwise the identity is `Name`, verbatim.
- The default configuration has no arguments and is named `avo`.

The behaviour is fixed by the package's Example test. The model is the single module
`Printer` in `printer.dfy`:

- `Config` is a datatype.
- `Join` is Go's `strings.Join`.
- `GeneratedBy` computes the identity.
- `GeneratedWarning` builds the line.

Two partner definitions read the output back. `Split` undoes `Join`. `ParseWarning`
recovers the identity from a warning line. Lemmas prove the round trips, the precedence
rule and the three lines the Example prints.

## Model

| member | source | states |
|---|---|---|
| `Printer.NewDefaultConfig` | printer/printer_test.go:10-11 | the default configuration has an identity, and that identity is the constant name "avo" |
| `Printer.GeneratedBy` | printer/printer_test.go:14-30 | the identity chosen by the precedence rule is never empty for a configuration with arguments or a name |
| `Printer.GeneratedWarning` | printer/printer_test.go:27-30 | every warning begins with "Code generated by ", ends with ". DO NOT EDIT." and holds a non-empty identity between them |
| `Printer.Join` | printer/printer_test.go:22-30 | joining yields the empty string for no arguments, the argument itself for one argument, and otherwise the characters of the arguments plus one separator between each pair |
| `Printer.JoinAppend` | printer/printer_test.go:22-30 | joining two non-empty lists one after the other is joining each and putting one separator between them; with the one-argument case this fixes the joined text for all arguments, including arguments that contain spaces |
| `Printer.SplitJoin` | printer/printer_test.go:22-30 | splitting the joined arguments on the separator gives back the original arguments, in order, when no argument contains the separator |
| `Printer.ArgvIdentity` | printer/printer_test.go:20-30 | with arguments present and no argument containing a space, the identity is "command: " followed by text that splits on single spaces into exactly the arguments, in order |
| `Printer.ArgvSingleIdentity` | printer/printer_test.go:20-30 | a single argument, whatever characters it holds, appears verbatim after "command: " as the identity |
| `Printer.ArgvIdentityAppend` | printer/printer_test.go:20-30 | for any arguments, including ones containing spaces, the identity of a longer command line is the identity of its first arguments, one space, and the remaining arguments joined with single spaces, in order |
| `Printer.ArgvTakesPrecedence` | printer/printer_test.go:20-25 | with arguments present, changing the name does not change the warning |
| `Printer.NameIsIdentity` | printer/printer_test.go:14-18 | without arguments, the warning is the fixed template around the name, verbatim |
| `Printer.ParseWarningSound` | printer/printer_test.go:27-30 | a line parses to identity `id` if and only if it is "Code generated by " + `id` + ". DO NOT EDIT." |
| `Printer.WarningRoundTrip` | printer/printer_test.go:27-30 | the identity can be read back out of every generated warning |
| `Printer.WarningDeterminesIdentity` | printer/printer_test.go:27-30 | two configurations produce the same warning if and only if they have the same identity |
| `Printer.DefaultWarning` | printer/printer_test.go:9-28 | the default configuration's warning is exactly "Code generated by avo. DO NOT EDIT." |
| `Printer.MildredWarning` | printer/printer_test.go:14-29 | a configuration named "mildred" with no arguments gives exactly "Code generated by mildred. DO NOT EDIT." |
| `Printer.EchoWarning` | printer/printer_test.go:20-30 | arguments echo, hello, world give exactly "Code generated by command: echo hello world. DO NOT EDIT.", whether the name is "mildred" or empty |

## Left out

- GeneratedWarning: the model excludes a configuration with no arguments and an empty name, through `HasIdentity`. The Example never exercises that case, so any fallback would be invented. Adding a default identity, such as reusing "avo", was considered and rejected for the same reason.
- GeneratedBy: has the same `HasIdentity` precondition, for the same reason.
- Printing the warning (`fmt.Println`) and the Example's output capture are I/O and are not modelled. The model returns the bare line. Comment markers and the trailing newline belong to the caller.
- Any other fields `NewDefaultConfig` may set are not modelled. Only the warning is observable here.
- Go strings are byte sequences. The model uses `seq<char>`. All the literals involved are ASCII, so this changes nothing for the behaviour modelled.
- The rest of avo is not part of this model. That includes the instruction database, register allocation, assembly emission and file writing.
