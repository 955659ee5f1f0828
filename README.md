# run: a "Run dialog" launcher, modelled in Dafny

`run` takes a free-form command line (its joined arguments, or one line read
at a `run: ` prompt), splits it into the file to run and a parameter string,
resolves a bare application name through the Windows App Paths registry
(`SOFTWARE\Microsoft\Windows\CurrentVersion\App Paths\<name>`, per-user hive
before per-machine hive, the name as typed before the name with `.exe`
appended), and hands the target to `ShellExecuteEx` with the `open` verb. The
exit code is 0 on a successful launch, 1 for a blank command line and 2 when
the launch fails.

The model has five modules:

- `Wrappers` (`wrappers.dfy`): `Option`, standing for a C# `null` string.
- `Text` (`text.dfy`): the .NET string operations the launcher relies on:
  `char.IsWhiteSpace` (the exact character set), `Trim` (a scan
  from the front and a scan from the back), `IsNullOrWhiteSpace`, `IndexOf(char, int)` and an ordinal case-insensitive
  `EndsWith`. `Trim` is pinned down by `TrimUnique`: the middle of any
  white-space / trimmed / white-space split.
- `Tokenizer` (`tokenizer.dfy`): `SplitCommand` as a pure function, with one
  lemma per branch from an independent description of the input (quote,
  file, quote, rest; file, space, rest; one word) to the result, and the
  converse lemmas that reassemble the trimmed input from the result. The
  quirk that an unterminated leading quote is an ordinary character of the
  file is kept.
- `Resolver` (`resolver.dfy`): `ResolveAppPath` as a method with the source's
  loop over the candidates, proved equal to the specification function
  `Resolve`. The registry is an oracle `Lookup = (Scope, string) ->
  Option<string>`; an empty string counts as no answer, as the source's
  `IsNullOrEmpty` test makes it. The search order is the probe list
  `Probes(Candidates(file))`: candidate-major, user hive before machine
  hive. `FirstHitAt` and `FirstHitNone` characterise the search
  independently of its recursion, and `ResolveOrder` spells out the four
  queries of a bare name.
- `Launcher` (`launcher.dfy`): the decision skeleton of `Main` as the method
  `Run`, with `ShellExecuteEx` (and the exception it may throw) abstracted as
  an oracle `Dispatch` that says whether the process started. `Run` also
  returns the request it handed to the shell, so that its contract can say
  what was launched.

## Model

| member | source | states |
|---|---|---|
| `Text.Trim` | run.cs:55 | The result has no leading or trailing white space and is no longer than the input. |
| `Text.TrimUnique` | run.cs:55 | For any split of a string into a white-space prefix, a trimmed middle and a white-space suffix, `Trim` returns exactly the middle. |
| `Text.BlankIffTrimEmpty` | run.cs:40 | `IsNullOrWhiteSpace(s)` holds exactly when `Trim(s)` is empty, so `Main`'s blank test and the tokenizer's empty case agree. |
| `Text.TrimOfTrimmed` | run.cs:63 | A string with no leading and no trailing white space is its own trim. |
| `Text.TrimIdempotent` | run.cs:63 | Trimming twice gives the same as trimming once. |
| `Text.IndexOf` | run.cs:59 | Returns -1 exactly when the character does not occur at or after the start index; otherwise a position holding the character with no earlier occurrence from the start index. |
| `Tokenizer.SplitCommand` | run.cs:53-72 | The parameter string is always trimmed, and file and parameters together are no longer than the trimmed input. |
| `Tokenizer.SplitTrimmed` | run.cs:56-71 | On the trimmed command line, the parameter string is trimmed and file and parameters together are no longer than the line. |
| `Tokenizer.SplitBlank` | run.cs:55-56 | A blank input gives an empty file and empty parameters. |
| `Tokenizer.SplitQuoted` | run.cs:57-65 | When the trimmed input is a quote, a quote-free file, a quote and a rest, the file is exactly that text between the quotes and the parameters are the trimmed rest. |
| `Tokenizer.QuotedShape` | run.cs:57-65 | Conversely, when the trimmed input opens with a quote that is closed later, the file contains no quote, the trimmed input starts with quote, file, quote, and the parameters are the trim of what follows. |
| `Tokenizer.SplitAtSpace` | run.cs:67-71 | Without a closing quote, when the trimmed input is a space-free word, a space and a rest, the file is that word (non-empty) and the parameters are the trimmed rest. |
| `Tokenizer.SpaceShape` | run.cs:67-71 | Conversely, without a closing quote and with a space in the trimmed input, the file is non-empty, holds no space, is followed by a space, and the parameters are the trim of what follows. |
| `Tokenizer.SplitWhole` | run.cs:67-68 | Without a closing quote and without a space, the whole trimmed input is the file and the parameters are empty. |
| `Tokenizer.UnterminatedQuoteKept` | run.cs:57-68 | A leading quote with no closing quote stays as the first character of the file. |
| `Tokenizer.NameThenArguments` | run.cs:67-71 | Any non-empty name that holds no space and opens with neither white space nor a quote, followed by a space and a non-empty trimmed argument string (`notepad file.txt`), splits into exactly that name and those arguments. |
| `Tokenizer.QuotedPathThenArguments` | run.cs:57-65 | Any quote-free path in quotes, spaces included, followed by a space and a non-empty trimmed argument string (`"C:\Program Files\app.exe" --flag`), splits into the path without its quotes and those arguments. |
| `Resolver.Candidates` | run.cs:79 | The first candidate is the name as typed; there is a second, the name with `.exe` appended, exactly when the name does not already end in `.exe` in any case, so `.exe` is never appended twice; the last candidate always ends in `.exe`. |
| `Resolver.ExeSuffixCases` | run.cs:79 | The ordinal case-insensitive `.exe` test accepts exactly a dot followed by e/E, x/X, e/E at the end of the name. |
| `Resolver.Probes` | run.cs:80-86 | The queries come candidate-major and scope-minor: query 2i is candidate i in the user hive, query 2i+1 the same candidate in the machine hive. |
| `Resolver.Answer` | run.cs:82-85 | A query answers only with a non-empty string that the registry returned, and does answer whenever the registry returned one. |
| `Resolver.FirstHit` | run.cs:80-87 | A found value is never empty. |
| `Resolver.FirstHitAt` | run.cs:80-87 | When query k answers and no earlier query does, the search returns query k's answer. |
| `Resolver.FirstHitNone` | run.cs:87 | The search finds nothing exactly when no query answers. |
| `Resolver.FirstHitFrom` | run.cs:80-86 | A found value is one the registry returned for some query of the list. |
| `Resolver.ResolveAppPath` | run.cs:74-88 | Blank file gives None; a rooted file or one containing `\` or `/` is returned unchanged; otherwise the result is the first answer in the priority order. |
| `Resolver.ResolveOrder` | run.cs:79-87 | For a bare name the result is the first answer among (name, user), (name, machine), then, only when the name lacks `.exe`, (name.exe, user), (name.exe, machine); None when none answers. |
| `Resolver.MachineShadowed` | run.cs:82-85 | When a candidate's user-hive entry answers, its machine-hive entry cannot change the result. |
| `Resolver.PathIgnoresRegistry` | run.cs:76-78 | A non-blank file that looks like a path resolves to itself whatever the registry holds. |
| `Launcher.ParametersArgument` | run.cs:115 | The shell gets no parameters exactly when the parameter string is blank, and otherwise the string itself. |
| `Launcher.NoParametersIffEmpty` | run.cs:115 | Because the tokenizer trims the parameters, the shell gets no parameters exactly when the tokenizer found none. |
| `Launcher.Run` | run.cs:37-45 | Exit code 1 exactly for a blank command line, and then nothing is launched; otherwise the target is the resolved path, or the literal file when resolution finds nothing, the parameters are those of the tokenizer, and the exit code is 0 when the launch succeeds and 2 when it fails. |

## Left out

- Argument collection and the interactive prompt (run.cs:39, run.cs:47-51): `Run` takes the joined command line as given. The command line is never null there (the prompt falls back to `""`), so it is a plain string.
- The body of `LookupAppPath` (run.cs:90-105): registry access, `Environment.ExpandEnvironmentVariables` and the swallowed exceptions are the oracle `Lookup`, whose `None` covers a missing key, a non-string or empty value, and any failure.
- `LaunchWithShellExecuteEx` (run.cs:107-140): the `SHELLEXECUTEINFO` structure and its constants, the P/Invoke call, closing the process handle, the exception handler and the messages written to standard error are the oracle `Dispatch`; only the choice of a null `lpParameters` for blank parameters (run.cs:115) is modelled.
- `Resolver.IsPathRooted` follows the Windows rule (leading `\` or `/`, or an ASCII drive letter and a colon); other path forms recognised by `Path.IsPathRooted` all start with a separator and are covered by it.
- Characters are Unicode scalar values, not UTF-16 code units; a lone surrogate in the command line cannot be expressed.
- `Text.EndsWithIgnoreCase` folds ASCII letters only. The ordinal case-insensitive comparison of .NET also folds non-ASCII letters; for the `.exe` test the two agree unless some non-ASCII letter upper-cases to `E` or `X`.
