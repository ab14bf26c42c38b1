# wifi-toggle, modelled in Dafny

wifi-toggle is a small CGI program. It lists the scripts stored on a MikroTik
router and runs one of them over SNMPv3. The page it serves holds a password
field. When the password is entered, the handler `handlerErr` does three things:

- It opens an SNMP session with that password.
- It walks the router's script-name column `1.3.6.1.4.1.14988.1.1.8.1.1.2` and builds a
  map from script index to script name. The index is the last component of each walked
  name, parsed by `stringToObjectIdentifier`.
- When a script button was pressed, it issues one Get on
  `1.3.6.1.4.1.14988.1.1.18.1.1.2.<execute>`. The text of the first returned variable is
  the script's output.

The project has four modules:

- `Wrappers` (`wrappers.dfy`) holds `Option`.
- `GoStrings` (`go_strings.dfy`) models the Go library functions the parser calls:
  - `strings.Trim` for a single cutset character;
  - `strings.Split` for a single separator;
  - `strconv.Atoi` over unbounded integers.
  Each has lemmas for the facts the parser relies on. The printers `strings.Join`
  and `strconv.Itoa` are not called by the parser. They are modelled to state the
  round trips (`SplitJoin`, `AtoiItoa`, `ParseFormat`). `Itoa` is also the decimal
  form in which the page prints a script index (`TriggerSelectsScript`).
- `ObjectIdentifiers` (`object_identifiers.dfy`) covers the parser.
  - `ParseOid` is the specification function.
  - `StringToObjectIdentifier` is the imperative version. It trims, splits and then runs
    `ConvertParts`, a loop that fills an array and returns `None` at the first piece
    `Atoi` rejects.
  - `FormatOid` is the printer. It is used to state the round trip and the concrete
    examples.
- `WifiToggle` (`wifi_toggle.dfy`) covers the handler.
  - The device's answers to Connect, Walk and Get are inputs (`Device`).
  - `WalkScripts` is the walk callback run over the delivered variables. It updates a
    `map<int, string>`, and is proved equal to `CollectScripts`.
  - `HandlerErr` returns the requests it issued, in order, together with the outcome:
    - a rendered page (password, script map, result);
    - the SNMP error it returned;
    - or the index-out-of-range panic in the callback.

Behaviour of the code worth knowing:

- The handler makes one walk, of the script-name column.
- The SNMP session is never closed.
- A walked name that does not parse makes `stringToObjectIdentifier` return `nil`. The
  callback then indexes `oid[len(oid)-1]`, which panics with an index out of range. The
  model records this as `Panicked(name)`.
- `strconv.Atoi` accepts a leading `+` or `-`, so identifier components may be negative.
- A failed Get returns its error, and no page is rendered, although the script map was
  already built.

## Model

| member | source | states |
|---|---|---|
| GoStrings.TrimMargins | wifi-toggle.go:30 | Trimming dots leaves a slice `oid[i..j]`, and everything before `i` and after `j` is a dot. |
| GoStrings.TrimIdempotent | wifi-toggle.go:30 | Trimming an already trimmed string changes nothing. |
| GoStrings.SplitJoinsBack | wifi-toggle.go:31 | No piece of `Split` holds the separator, and joining the pieces with it gives the string back. |
| GoStrings.SplitJoin | wifi-toggle.go:31 | `Split` of a `Join` of a non-empty list of separator-free pieces gives the pieces back. |
| GoStrings.AtoiSpec | wifi-toggle.go:37-40 | `Atoi` fails exactly on "", a lone sign, or a character that is neither a digit nor a leading sign. A leading `-` gives a value ≤ 0, anything else a value ≥ 0. |
| GoStrings.AtoiItoa | wifi-toggle.go:37 | `Atoi(Itoa(n)) == Some(n)` for every integer. |
| ObjectIdentifiers.ParsePartsSpec | wifi-toggle.go:32-41 | Converting the pieces succeeds iff every piece converts. It then holds each piece's value at that piece's position. |
| ObjectIdentifiers.ConvertParts | wifi-toggle.go:32-42 | The array-filling loop with its early return equals `ParseParts`: a full result or `None`, never a partial one. |
| ObjectIdentifiers.StringToObjectIdentifier | wifi-toggle.go:28-43 | Trim, split and convert returns exactly `ParseOid(oid)`. |
| ObjectIdentifiers.ParseOidSucceeds | wifi-toggle.go:30-42 | `ParseOid(oid) == Some(ids)` iff `ids` has one entry per piece of the trimmed string, in order, each equal to `Atoi` of that piece. |
| ObjectIdentifiers.ParseOidIgnoresTrim | wifi-toggle.go:30 | Parsing the trimmed string gives the same result as parsing the original. |
| ObjectIdentifiers.ParseOidIgnoresLeadingDot | wifi-toggle.go:30 | A leading dot makes no difference to the parse. |
| ObjectIdentifiers.ParseOidIgnoresTrailingDot | wifi-toggle.go:30 | A trailing dot makes no difference to the parse. |
| ObjectIdentifiers.ParseOidIgnoresOuterDots | wifi-toggle.go:30-31 | `"." + oid + "."` parses the same as `oid`. |
| ObjectIdentifiers.ParseOidRejectsEmpty | wifi-toggle.go:30-40 | The empty string and a string of dots only give `None`. |
| ObjectIdentifiers.ParseOidRejectsEmptyPart | wifi-toggle.go:31-40 | Two adjacent dots inside the trimmed string give `None`. |
| ObjectIdentifiers.ParseOidRejectsNonDigit | wifi-toggle.go:35-40 | A piece holding a character that is neither a digit nor a leading sign gives `None`. |
| ObjectIdentifiers.ParsePartsAppend | wifi-toggle.go:35-41 | Converting `p + q` gives the two results concatenated, or `None` if either fails. |
| ObjectIdentifiers.ParseOidJoin | wifi-toggle.go:30-42 | Two dotted strings without outer dots, joined by a dot, parse to the concatenation of their identifiers, or fail if either fails. |
| ObjectIdentifiers.ParseFormat | wifi-toggle.go:28-43 | Parsing the dotted decimal form of any non-empty identifier gives that identifier back. |
| ObjectIdentifiers.ExampleOuterDots | wifi-toggle.go:30-31 | `".1.2.3."` and `"1.2.3"` both parse to `[1, 2, 3]`. |
| ObjectIdentifiers.ExampleInterfaceName | wifi-toggle.go:31-42 | `"1.3.6.1.2.1.31.1.1.1.1.3"` parses to `[1,3,6,1,2,1,31,1,1,1,1,3]`, whose last component is 3. |
| ObjectIdentifiers.ExampleFailures | wifi-toggle.go:35-40 | `"1..2"`, `""` and `"..."` give `None`. |
| WifiToggle.StoreScripts | wifi-toggle.go:98-101 | Storing the walked values panics iff some variable has no index, and the panic names the first such variable. |
| WifiToggle.WalkScripts | wifi-toggle.go:98-101 | The callback loop over the delivered variables gives exactly `CollectScripts`: the map it builds, or the panic of the first unparsable name. |
| WifiToggle.CollectScriptsPanics | wifi-toggle.go:99-100 | The walk panics iff some walked name has no index. The panic names the first such name, and all names before it have indices. |
| WifiToggle.CollectScriptsStep | wifi-toggle.go:100 | One more variable with index `k` stores its value under `k`. The keys become the old keys plus `k`, and every other index keeps its value. |
| WifiToggle.CollectScriptsKeys | wifi-toggle.go:100 | The map's keys are exactly the indices of the walked names. |
| WifiToggle.CollectScriptsLastWins | wifi-toggle.go:100 | An index holds the value of the last walked variable with that index. |
| WifiToggle.TriggerSelectsScript | wifi-toggle.go:108 | For an index printed in decimal, the Get identifier parses to the run column followed by that index. Its last component is the index. |
| WifiToggle.WalkedNameIndex | wifi-toggle.go:98-100 | A walked name `.<name column>.<k>` is stored under index `k`. |
| WifiToggle.HandlerErr | wifi-toggle.go:72-116 | The case analysis of the handler's outcome:<br>• An empty password issues nothing and renders an empty map with an empty result.<br>• The requests issued are a prefix of Connect, Walk, Get, and each one is issued exactly when everything before it succeeded.<br>• The Get is issued only if `execute` is non-empty.<br>• The only Get is the last request, on `[TriggerOid(execute)]`.<br>• Each failure ends the request with that error, and an unparsable name ends it with the panic.<br>• A rendered page after a login shows `CollectScripts` of the walk, and the first returned value (or "") when a script ran. |

## Left out

- The HTML template and its rendering (wifi-toggle.go:45-70, 117-125) are presentation. The model returns the values handed to the template. A template execution error is not modelled.
- `handler`, `main` and the `-target`/`-user` flags (wifi-toggle.go:17-26, 128-132) are process set-up and HTTP/CGI I/O. The flags become the `Config` input.
- The gosnmp library behind `Connect`, `Walk` and `Get` (wifi-toggle.go:93, 98, 108) is external. Its answers are the `Device` input: a reply to Connect, the variables a walk delivers and its final status, and the values a Get returns.
- The SNMPv3 session settings (wifi-toggle.go:77-92) are recorded as constants in `SessionParams`. They carry no logic here. `MaxOids` is not recorded.
- The `Value.([]byte)` type assertions (wifi-toggle.go:100, 113) would panic if a value were not a byte slice. The values are text in the model.
- GoStrings.Atoi: does not model Go's `ErrRange` for values outside the platform's `int`, because integers are unbounded in the model.
