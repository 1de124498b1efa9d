# mysql_data_copy in Dafny

A model of `python/3/mysql_data_copy.py`, a script that copies schemas from one MySQL server
to another. It pipes a `mysqldump` of the source into a `mysql` client on the target. The
model covers what the script computes before it starts any process:

- the missing-credential prompts, which change the parsed arguments in place;
- the two connectivity-probe command lines;
- the quoted list built from an explicit `--databases` value;
- the overwrite of the schema list by the catalog query's output;
- the dump and load command lines, word by word;
- the password masking applied before a command is shown;
- the final yes/no gate.

Modules, one file each:

- `Text`: command rendering (a tool name followed by `' ' + word` per word), Python's
  `str.replace`, `str.split(' ')`, `join` and string accumulation.
- `Redaction`: the `re.sub` that replaces `--password='<run of [A-Za-z0-9!#$_]>'` by a
  21-`X` marker, written as a left-to-right scan and proved equal to the regular expression
  read literally.
- `Console`: the "missing" test on an argument, the credential fallback, and the `Y`/`y` test.
- `Schemas`: the loop over the explicit schema list, and the four chained replaces that clean
  the schema list.
- `Commands`: ports, endpoints, the words of the probe, dump and load commands, and the
  imperative builders that grow a command with `+=`.
- `Display`: what the operator sees of each command.
- `Invocation`: the parsed-argument object (a class whose fields the script reassigns).
- `DataCopy`: one run of the script, top to bottom.

Behaviour of the code that the model keeps as written:

- A port given on the command line is text, and the default is the integer 3306. So
  `!= 3306` holds for every given port, even a typed `3306`.
- The load command's `--port=` carries the source port's value. The target port only decides
  whether the word is present.
- The explicit-list loop resets its accumulator on every pass, so only the last
  space-separated item survives.
- The schema list used by the dump is always the catalog query's rendered output followed by
  `None`, because `communicate()` returns the unpiped standard error as `None`. That list is
  never empty, so `--all-databases` is never chosen in a run.
- An explicit `--databases` value only feeds the `NOT IN` list of the catalog query
  (lines 113-117). The dump's `--databases` always carries the catalog query's output
  (lines 121-123 and 143).

## Model

| member | source | states |
|---|---|---|
| Text.Split | python/3/mysql_data_copy.py:113 | `split(' ')` gives at least one piece, and no piece holds the separator |
| Text.SplitJoin | python/3/mysql_data_copy.py:113 | joining the pieces of a split with the separator gives back the input |
| Text.LastPieceIsTail | python/3/mysql_data_copy.py:113-116 | the last piece holds no separator, is a suffix of the input, and is preceded by the separator unless it is the whole input |
| Text.ReplaceAllChars | python/3/mysql_data_copy.py:143 | `replace` introduces no character that is in neither the input nor the replacement |
| Text.ReplaceCharRemoves | python/3/mysql_data_copy.py:143 | replacing a character by text without it removes every occurrence |
| Text.ReplaceAll | python/3/mysql_data_copy.py:143 | `replace` of a pattern by itself, or on text shorter than the pattern, leaves the text unchanged |
| Text.Concat | python/3/mysql_data_copy.py:122-123 | the accumulated text ends with the last item, and no item is longer than the result |
| Text.RenderPrefix | python/3/mysql_data_copy.py:128-131 | a command grown from a prefix of its words is a prefix of the full command |
| Text.RenderLast | python/3/mysql_data_copy.py:146 | a command ends with a space and its last word |
| Redaction.RunLength | python/3/mysql_data_copy.py:92 | the length of the longest run of password characters at the start: every character before it is in the class, the next one is not |
| Redaction.Redact | python/3/mysql_data_copy.py:92 | text without a quote is shown unchanged |
| Redaction.MatchAtIsRegexMatch | python/3/mysql_data_copy.py:92 | the scan matches exactly where the pattern matches, with the same length |
| Redaction.RedactSpaceCut | python/3/mysql_data_copy.py:157 | a match never spans a space, so masking a string cut at a space masks each side separately |
| Redaction.RedactRender | python/3/mysql_data_copy.py:157-159 | masking a command masks it word by word, keeping the command's words and spaces |
| Redaction.RedactEachKeepsOthers | python/3/mysql_data_copy.py:157-159 | when every other word is shown as is, masking the words changes at most the one word |
| Redaction.PasswordWordMasked | python/3/mysql_data_copy.py:92 | a password made only of class characters, and not empty, is shown as the 21-`X` marker |
| Redaction.PasswordWordVisible | python/3/mysql_data_copy.py:92 | any other password without a quote is shown in clear |
| Redaction.QuoteSafeUnchanged | python/3/mysql_data_copy.py:101 | text with no quote where a match's opening quote would stand is shown unchanged |
| Redaction.QuotedValueUnchanged | python/3/mysql_data_copy.py:159 | a quote-free value after a head shorter than `--password='` (a user or host word) is shown unchanged |
| Redaction.NoMatchUnchanged | python/3/mysql_data_copy.py:157 | text where the pattern matches nowhere is shown unchanged |
| Console.FallbackMissing | python/3/mysql_data_copy.py:52-86 | a resolved setting is still missing exactly when it was missing and the operator typed nothing; a supplied one is kept |
| Console.Fallback | python/3/mysql_data_copy.py:52-86 | a resolved setting is either the supplied value or the operator's answer, and it is empty only when the setting was missing |
| Console.AffirmativeIsOneLetter | python/3/mysql_data_copy.py:163 | an answer confirms exactly when it is the single letter `Y` or `y`; the empty answer and `yes` do not |
| Console.Affirmative | python/3/mysql_data_copy.py:163 | a confirming answer is exactly one character long |
| Schemas.ExclusionList | python/3/mysql_data_copy.py:113-116 | the quoted list is `'<last space-separated item>',`; it holds no space; that item is a suffix of the input |
| Schemas.CleanSchemaList | python/3/mysql_data_copy.py:143 | the schema list after the four replaces holds no comma |
| Commands.BuildDumpCommand | python/3/mysql_data_copy.py:128-146 | the command grown by `+=` is the dump tool followed by the dump's words |
| Commands.Append | python/3/mysql_data_copy.py:129-146 | one conditional `+= ' ' + word` step adds the word to the command exactly when its condition holds |
| Commands.DumpWords | python/3/mysql_data_copy.py:128-146 | the dump has between five and eight words; the third is the password word and the last is the host |
| Commands.DumpLayout | python/3/mysql_data_copy.py:128-146 | the dump's words in order: column statistics, user, password, the suppression flags that apply, the schema selection, the port when given, the host |
| Commands.DumpCommandFrame | python/3/mysql_data_copy.py:128-146 | the dump starts with the tool, the column-statistics flag, the quoted user and the password, and ends with the host |
| Commands.DumpSuppression | python/3/mysql_data_copy.py:132-139 | `--no-create-db` is present exactly when `--create-db` is off and the answer is `Y`/`y`; the same for `--no-create-info`; the first comes before the second |
| Commands.DumpSchemaSelection | python/3/mysql_data_copy.py:140-143 | `--all-databases` is present exactly when the list is empty; otherwise `--databases ` with the cleaned list is present; there is exactly one selection word; the list holds no comma |
| Commands.DumpPort | python/3/mysql_data_copy.py:144-146 | a port word is present exactly when the source port was given, just before the host; a typed `3306` still adds `--port=3306` |
| Commands.BuildLoadCommand | python/3/mysql_data_copy.py:148-153 | the command grown by `+=` is the client tool followed by the load's words |
| Commands.LoadWords | python/3/mysql_data_copy.py:148-153 | the load has four words when the target port was given and three otherwise; the second is the password word |
| Commands.LoadCommand | python/3/mysql_data_copy.py:148-153 | the load command is the client tool, quoted user, password and host, then `--port=<source port>` exactly when the target port was given |
| Commands.ProbeWords | python/3/mysql_data_copy.py:91 | the probe has eight words, the second being the password word |
| Commands.ProbeCommand | python/3/mysql_data_copy.py:91 | the probe command is exactly the script's text with the endpoint's user, password and host filled in |
| Commands.LoadLayout | python/3/mysql_data_copy.py:148-153 | quoted user, password, quoted host, then a port word exactly when the target port was given, carrying the source port |
| Commands.LoadIgnoresTargetPortValue | python/3/mysql_data_copy.py:152-153 | the target port's value never reaches the load command; a given target port appends `--port=<source port>` |
| Display.OnlyPasswordShown | python/3/mysql_data_copy.py:157-159 | when every other word is shown as is, the shown command is the command with its password word masked, or unchanged for a password the pattern cannot match |
| Display.DumpDisplay | python/3/mysql_data_copy.py:157 | the shown dump is the dump built with the marker as password when the pattern matches the password, and the dump itself otherwise |
| Display.DumpOptionsQuoteFree | python/3/mysql_data_copy.py:132-146 | past the password, the dump's words hold no quote, and the dump with the marker differs only in the password word |
| Display.QuoteFreeShown | python/3/mysql_data_copy.py:157 | quote-free words are shown as they are |
| Display.LoadDisplay | python/3/mysql_data_copy.py:159 | the shown load is the load built with the marker as password when the pattern matches the password, and the load itself otherwise |
| Display.ProbeDisplay | python/3/mysql_data_copy.py:91-92 | the shown probe is the probe built with the marker as password when the pattern matches the password, and the probe itself otherwise |
| Display.ProbeMasked | python/3/mysql_data_copy.py:91 | the probe with the marker differs from the probe only in the password word |
| Display.ProbeOthersShown | python/3/mysql_data_copy.py:91-92 | every probe word other than the password is shown unchanged |
| Display.ProbeWordQuoteFree | python/3/mysql_data_copy.py:91 | the probe's user, host and option words hold no quote |
| Display.ProbeQueryShown | python/3/mysql_data_copy.py:91 | the quotes inside the probe's query text never start a match |
| Invocation.Prompted | python/3/mysql_data_copy.py:52-86 | a setting's prompt is among those shown exactly when that setting is missing; each shown prompt appears once, in the order the script checks the settings |
| Invocation.Arguments.constructor | python/3/mysql_data_copy.py:31-46 | the parsed arguments hold exactly the values given |
| Invocation.Arguments.ResolveCredentials | python/3/mysql_data_copy.py:52-86 | each missing setting becomes the operator's answer and each supplied one is kept; the prompts shown are the missing settings in order; nothing else changes |
| Invocation.Arguments.ReplaceDatabases | python/3/mysql_data_copy.py:121-123 | the schema list becomes the concatenation of the catalog result's items; nothing else changes |
| DataCopy.Run | python/3/mysql_data_copy.py:52-176 | one run: the credential prompts shown, both probes, the exclusion list only when schemas were given, the schema list overwritten with the catalog output followed by `None`, the dump and load built from the resolved settings, their shown forms masked, and the copy started exactly when the final answer is `Y`/`y` |
| DataCopy.AllDatabasesUnreachable | python/3/mysql_data_copy.py:119-143 | with the schema list a run produces, the dump never holds `--all-databases` and always holds `--databases ` with the cleaned list |

## Left out

- Process execution: `subprocess.Popen`, the pipe from dump to load, and closing the pipe. The
  model stops at the command lines and the decision to start the copy.
- The probe result check (lines 94 and 103): it compares a tuple with a string and only
  prints. The probes are built and masked, and their output is not modelled.
- The catalog query (lines 110 and 117): its SQL text and the server's answer. The rendered
  standard output is a parameter of `DataCopy.Run`; the list the query would exclude is
  modelled by `Schemas.ExclusionList`.
- Argument parsing, the terminal and output: argparse, `input`, `getpass` and every `print`.
  The parsed values and the operator's answers are parameters. An end of input at a prompt
  is not modelled.
- The timestamp tag and the verbosity counter: both only affect printed text. The shown
  command forms are computed whatever the verbosity.
- Shell interpretation of the command lines: quoting and word splitting by the shell are
  not modelled. A command is the string the script builds.
- Display.DumpDisplay, Display.LoadDisplay and Display.ProbeDisplay: they assume quote-free
  user names, host names, ports and schema names, and say nothing about the display when a
  password holds a quote and the pattern does not match it.
- Commands.ProbeWords: the probe's query text, which has spaces inside its quotes, is cut at
  those spaces into three words. The rendered string is the same.
- Invocation.Arguments.ResolveCredentials: the six `if not …` checks are written with the
  fallback function instead of six branches. The text of each prompt is not modelled.
