# Figure editor persistence, modelled in Dafny

The program is a console editor for one *figure*: a name, a width and a height. It loads the
figure from a file, lets the user edit it field by field, and saves it. The class `FileIO` is the
persistence layer. It takes the extension of the file path and picks a codec:

- `.txt` is a text codec: name, width and height on three lines.
- `.json` goes to a JSON library.
- `.xml` is registered, but both of its directions are stubs that always throw.
- Any other extension throws "Unsupported file format".

The model has five modules:

- `Wrappers` (`wrappers.dfy`): `Option` and `Result`.
- `Figures` (`figures.dfy`): the `Figure` value. It also holds `Numerals`, the pair of functions
  that stands for `double.Parse`/`double.TryParse` and the default double-to-text conversion.
  Numbers are a type parameter `Num`, so no floating point is modelled.
- `Platform` (`platform.dfy`): the two library behaviours the layer depends on, written out:
  - `Extension` is `Path.GetExtension` as .NET Core runs it on Windows, the platform of this
    console program. It scans back from the end and stops at `/` or `\`. A dot gives the suffix
    from that dot, except that a dot in last position gives no extension.
  - `SplitLines` is the line splitting of `File.ReadAllLines`. Terminators are `\n`, `\r` and
    `\r\n`. A final terminator does not start an empty line, and empty text has no lines.
- `FileIO` (`fileio.dfy`):
  - the error taxonomy;
  - the text codec (`DecodeTxt`, `EncodeTxt`);
  - the JSON codec as a supplied pair of functions (`JsonCodec`);
  - the XML stubs;
  - the dispatch functions `LoadFigure` and `SaveFigure`.

  `LoadFigure` takes the file's text as a parameter. `SaveFigure` returns the text that would be
  written.
- `Editor` (`editor.dfy`):
  - the edit rule as a pure function (`ApplyEdit`, `NumberEdit`, `EditWarnings`);
  - the class `TextEditor`. Its field `currentFigure` is `None` until a load succeeds.
    `EditFigure` updates that field one field of the figure at a time and is proved equal to
    `ApplyEdit`.

Errors. The program raises `NotSupportedException` both for an unknown extension and from the
XML stubs; only the message tells them apart. The model names the variants after those
messages:

- `Unsupported`;
- `XmlNotImplemented(Reading)` and `XmlNotImplemented(Writing)`, one per stub message;
- `InvalidData` for a text file of fewer than three lines;
- `NumberParse(text)` for the `FormatException` of `double.Parse`. It carries the rejected line,
  so the model also records that the width is parsed before the height;
- `JsonInvalid` for an error raised by the JSON library.

Where what the program appears to intend and what its code does differ, the model follows the
code:

- A malformed number line looks like an "Invalid TXT file format" (the message of
  `text1/Program.cs:36`). The code does not raise that error for it: `double.Parse`
  (`text1/Program.cs:41-42`) throws a `FormatException`, which is unrelated to
  `InvalidDataException`. So `NumberParse` is a variant of its own.
- The XML stubs say "is not implemented" (`text1/Program.cs:57` and `:94`), which reads as an error
  kind of its own. The code throws the same `NotSupportedException` type as for an unknown
  extension (`text1/Program.cs:28`); only the message differs.
- No line of the program validates the name. One might expect an empty name to break the text
  round trip. Under the line splitting above, though, an empty name round-trips too; only a name
  holding `\n` or `\r` does not (`FileIO.TxtFileRoundTrip` requires only
  `NoLineBreak(figure.name)`).

## Model

| member | source | states |
|---|---|---|
| `Platform.Extension` | text1/Program.cs:17 | the extension is empty, or a suffix of the path made of a dot and at least one further character, none of them a dot or a directory separator |
| `Platform.ExtensionOfSuffix` | text1/Program.cs:17 | a path ending in such a token has exactly that token as its extension, whatever precedes it |
| `Platform.ExtensionOfLastSegment` | text1/Program.cs:62 | only the last path segment decides the extension; dots in directory names are ignored |
| `Platform.ExtensionWithoutDot` | text1/Program.cs:17 | a path without any dot has the empty extension |
| `Platform.SplitLines` | text1/Program.cs:34 | no line read contains a line break, and text is empty exactly when it has no lines |
| `Platform.SplitOneLine` | text1/Program.cs:34 | a non-empty text without line break reads as exactly one line |
| `Platform.SplitFirstLine` | text1/Program.cs:34 | a first line followed by `\n` reads as that line, then the lines of the rest |
| `Platform.SplitLinesPrefix` | text1/Program.cs:34 | appending text that starts with a line break never changes the lines already read: they stay a prefix |
| `FileIO.DecodeTxt` | text1/Program.cs:32-44 | fails with InvalidData exactly when there are fewer than 3 lines; otherwise it succeeds exactly when lines 1 and 2 both parse, the result has line 0 as its name and those parses as width and height, and a parse failure names line 1 if it fails, else line 2 |
| `FileIO.EncodeTxt` | text1/Program.cs:80-83 | the text written is the name, a `\n`, the rendered width, a `\n` and the rendered height, laid out position by position and nothing more |
| `FileIO.TxtTooFewLines` | text1/Program.cs:35-36 | fewer than three lines give InvalidData, whatever they contain |
| `FileIO.TxtIgnoresExtraLines` | text1/Program.cs:38-43 | two inputs of at least three lines that agree on lines 0 to 2 decode to the same result |
| `FileIO.TxtEncodeLines` | text1/Program.cs:82 | the saved text of a figure whose name has no line break reads as exactly three lines: the name and the two rendered numbers |
| `FileIO.TxtRoundTrip` | text1/Program.cs:38-43 | decoding the encoded text keeps the name and gives each dimension as the parse of its rendering, or the parse error of the first rendering that does not parse |
| `FileIO.DecodeJson` | text1/Program.cs:46-53 | succeeds exactly when the JSON library returns a figure, and then with that figure; every failure is JsonInvalid |
| `FileIO.DecodeXml` | text1/Program.cs:55-58 | always fails with the XML error for reading |
| `FileIO.EncodeXml` | text1/Program.cs:92-95 | always fails with the XML error for writing |
| `FileIO.Message` | text1/Program.cs:26-28 | a message is given exactly for the errors the program raises itself: Unsupported, both XML errors and InvalidData |
| `FileIO.MessagesDistinct` | text1/Program.cs:55-58 | the messages of Unsupported, the two XML errors and InvalidData are pairwise different, so a message identifies its error although the exception type is shared |
| `FileIO.LoadFigure` | text1/Program.cs:15-30 | `.txt` decodes the lines of the text with the text codec; `.json` hands the whole text to the JSON codec; Unsupported exactly when the extension is not `.txt`, `.json` or `.xml` (exact, case-sensitive); XML not-implemented exactly for `.xml`; text errors only for `.txt`; JSON errors only for `.json`; never the saving error |
| `FileIO.SaveFigure` | text1/Program.cs:60-78 | Unsupported exactly for unregistered extensions; XML not-implemented exactly for `.xml`; success exactly for `.txt` and `.json`; for `.txt` the text written is the text encoding, for `.json` the JSON library's serialisation |
| `FileIO.LoadSaveAgree` | text1/Program.cs:64-77 | load and save reject the same paths as unsupported and the same paths with the XML error; a path that saves never loads with Unsupported or the XML error |
| `FileIO.XmlAlwaysFails` | text1/Program.cs:55-58 | every path ending in `.xml` fails to load with the reading error and to save with the writing error, whatever the content or figure |
| `FileIO.UnregisteredExtensionFails` | text1/Program.cs:27-28 | a path ending in an extension other than the three, such as `.TXT` or `.csv`, is Unsupported for both load and save |
| `FileIO.NoExtensionFails` | text1/Program.cs:75-76 | a path without any dot is Unsupported for both load and save |
| `FileIO.TxtFileTooShort` | text1/Program.cs:34-36 | loading a `.txt` path whose text has fewer than three lines fails with InvalidData |
| `FileIO.TxtFileIgnoresTrailingText` | text1/Program.cs:34-43 | once a `.txt` file has three lines, text appended after a line break does not change what is loaded |
| `FileIO.TxtFileRoundTrip` | text1/Program.cs:80-83 | saving to a `.txt` path succeeds, and loading the saved text keeps the name and re-parses both rendered dimensions |
| `FileIO.TxtFileRoundTripExact` | text1/Program.cs:80-83 | when rendering then parsing numbers gives them back, saving to `.txt` and loading gives back exactly the figure saved |
| `Editor.NumberEdit` | text1/Program.cs:129-140 | an empty input or one that does not parse keeps the current number; otherwise the number becomes the parsed input |
| `Editor.ApplyEdit` | text1/Program.cs:121-154 | an empty name input keeps the name, otherwise it replaces it; an empty or unparsable width or height input keeps that number, otherwise its parse replaces it |
| `Editor.EditWarnings` | text1/Program.cs:136-153 | a warning for width, or for height, is given exactly when that input is non-empty and does not parse; nothing else is warned, each warning appears at most once, and the width warning comes before the height warning |
| `Editor.EditWithEmptyInputs` | text1/Program.cs:123-126 | three empty inputs leave the figure unchanged and give no warning |
| `Editor.EditFieldsIndependent` | text1/Program.cs:121-154 | each field's new value depends only on its old value and its own input, so editing one field never changes another |
| `Editor.EditIdempotent` | text1/Program.cs:121-154 | repeating an edit session with the same inputs changes nothing further |
| `Editor.EditKeepsField` | text1/Program.cs:144-154 | a field keeps its value exactly when its input is empty, does not parse (numbers), or equals the current value |
| `Editor.TextEditor.constructor` | text1/Program.cs:103-106 | a new editor holds no figure |
| `Editor.TextEditor.LoadFile` | text1/Program.cs:108-112 | a successful load replaces the current figure; a failed load returns the error and leaves the current figure as it was |
| `Editor.TextEditor.EditFigure` | text1/Program.cs:114-157 | updating name, width and height in turn gives the current figure `ApplyEdit` of its old value, and the warnings `EditWarnings` |
| `Editor.TextEditor.SaveFile` | text1/Program.cs:159-163 | the outcome is that of `SaveFigure` for the current figure |

## Left out

- File reading and writing (`File.ReadAllLines`, `File.WriteAllText`, `StreamReader`) are not
  modelled. `LoadFigure` receives the text, and `SaveFigure` returns the text to write. File
  system errors (missing file, permissions) and partial writes are therefore not modelled. Text
  decoding (encodings, byte-order marks) is not modelled either.
- `Platform.Extension` follows the Windows form of the .NET Core scan, where `/` and `\` are both
  separators. On Linux and macOS only `/` is a separator, so there `Path.GetExtension("d.x\\f")`
  is `.x\f` while the model gives the empty extension. Invalid path characters and a `null` path
  are not modelled.
- The JSON library (`JsonConvert`) is a supplied, uninterpreted pair of functions. For that
  reason there is no JSON round-trip claim. Its handling of missing fields (default values) is
  not modelled. A deserialisation that returns `null` instead of throwing is not modelled either:
  the model has no null figure.
- `double.Parse`, `double.TryParse` and double-to-text conversion are the supplied functions of
  `Numerals`; both parse methods are taken to accept the same texts. The text round trip assumes
  `FormatsOnOneLine` (every rendering is non-empty and has no line break).
  `FileIO.TxtFileRoundTripExact` also assumes `FormatRoundTrips` (parsing a rendering gives the
  number back). Neither assumption is proved here about real doubles.
- Console prompts and messages are not modelled: "File loaded successfully.", "File saved
  successfully.", and the printing of the figure and of exception messages. `EditFigure` takes the
  three input lines as parameters. A `null` from `Console.ReadLine`, which the program treats
  like an empty line, is not representable.
- `Main` is not modelled: the key-press loop, the `running` flag, and the printing of caught
  exceptions. It is pure console plumbing.
- `Editor.TextEditor.EditFigure` and `Editor.TextEditor.SaveFile` require a loaded figure. The
  program would fail with a null reference before any load, but `Main` only reaches them after a
  successful load.
- `Figure` is a mutable class in the program, and `EditFigure` changes the object that
  `LoadFigure` returned. The model keeps the figure as a value in the editor's field. The two
  agree because no other reference to that object exists.
