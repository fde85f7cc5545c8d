/** The persistence layer `FileIO`: the extension of a path selects a codec; the text codec is
    written out, the JSON codec is a supplied pair of functions and the XML codec always fails.
    Reading and writing files is left to the caller: `LoadFigure` receives the file's text and
    `SaveFigure` returns the text to be written. */
module FileIO {
  import opened Wrappers
  import opened Figures
  import opened Platform

  /** Which way an XML operation was attempted; the two stubs raise different messages. */
  datatype Direction = Reading | Writing

  /** The exceptions the persistence layer raises. */
  datatype Error =
    | Unsupported                           // NotSupportedException: no codec for the extension
    | XmlNotImplemented(direction: Direction) // NotSupportedException from the XML stubs
    | InvalidData                           // InvalidDataException: a text file of fewer than 3 lines
    | NumberParse(text: string)             // FormatException: `double.Parse` rejected `text`
    | JsonInvalid                           // the JSON library rejected the input

  /** The message each exception carries where the program writes it itself; the messages of the
      library's exceptions are not modelled. */
  function Message(e: Error): (m: Option<string>)
    ensures m.Some? <==> !e.NumberParse? && !e.JsonInvalid?
  {
    match e
    case Unsupported => Some("Unsupported file format")
    case XmlNotImplemented(Reading) => Some("XML deserialization is not implemented.")
    case XmlNotImplemented(Writing) => Some("XML serialization is not implemented.")
    case InvalidData => Some("Invalid TXT file format")
    case _ => None
  }

  /** The two `NotSupportedException`s of the XML stubs and the one for an unknown extension share
      their type; their messages tell all three apart, as they do the invalid-data message. */
  lemma MessagesDistinct(e: Error, e': Error)
    requires Message(e).Some? && Message(e) == Message(e')
    ensures e == e'
  {
  }

  /** `JsonConvert.SerializeObject` (indented) and `JsonConvert.DeserializeObject<Figure>`;
      `deserialize` gives `None` where the library throws. */
  datatype JsonCodec<!Num> = JsonCodec(serialize: Figure<Num> -> string,
                                       deserialize: string -> Option<Figure<Num>>)

  /** The extensions that have a codec; the comparison is exact, so case matters. */
  predicate IsRegistered(ext: string) {
    ext == ".txt" || ext == ".json" || ext == ".xml"
  }

  // ---------------------------------------------------------------------------------------------
  // Text codec
  // ---------------------------------------------------------------------------------------------

  /** `LoadTxtFigure` after `File.ReadAllLines`: line 0 is the name, lines 1 and 2 are parsed as
      width and then height, and any further lines are ignored. */
  function DecodeTxt<Num>(numerals: Numerals<Num>, lines: seq<string>): (r: Result<Figure<Num>, Error>)
    ensures r == Failure(InvalidData) <==> |lines| < 3
    ensures |lines| >= 3 ==>
              (r.Success? <==> numerals.parse(lines[1]).Some? && numerals.parse(lines[2]).Some?)
    ensures r.Success? ==>
              r.value.name == lines[0] &&
              numerals.parse(lines[1]) == Some(r.value.width) &&
              numerals.parse(lines[2]) == Some(r.value.height)
    ensures r.Failure? && |lines| >= 3 ==>
              r.error == NumberParse(if numerals.parse(lines[1]).None? then lines[1] else lines[2])
  {
    if |lines| < 3 then Failure(InvalidData)
    else
      match numerals.parse(lines[1])
      case None => Failure(NumberParse(lines[1]))
      case Some(width) =>
        match numerals.parse(lines[2])
        case None => Failure(NumberParse(lines[2]))
        case Some(height) => Success(Figure(lines[0], width, height))
  }

  /** The text `SaveTxtFigure` writes: name, width and height separated by "\n". */
  function EncodeTxt<Num>(numerals: Numerals<Num>, figure: Figure<Num>): (text: string)
    ensures var n, w, h := figure.name, numerals.format(figure.width), numerals.format(figure.height);
            |text| == |n| + |w| + |h| + 2 &&
            text[..|n|] == n && text[|n|] == '\n' &&
            text[|n| + 1..|n| + 1 + |w|] == w && text[|n| + 1 + |w|] == '\n' &&
            text[|n| + 2 + |w|..] == h
  {
    figure.name + "\n" + numerals.format(figure.width) + "\n" + numerals.format(figure.height)
  }

  /** Numbers render as text that fits on one non-empty line, as default double formatting does. */
  ghost predicate FormatsOnOneLine<Num(!new)>(numerals: Numerals<Num>) {
    forall n :: numerals.format(n) != [] && NoLineBreak(numerals.format(n))
  }

  /** Parsing a rendered number gives the number back. */
  ghost predicate FormatRoundTrips<Num(!new)>(numerals: Numerals<Num>) {
    forall n :: numerals.parse(numerals.format(n)) == Some(n)
  }

  /** A text file of fewer than three lines is rejected as invalid data whatever it contains. */
  lemma TxtTooFewLines<Num>(numerals: Numerals<Num>, lines: seq<string>)
    requires |lines| < 3
    ensures DecodeTxt(numerals, lines) == Failure(InvalidData)
  {
  }

  /** Decoding looks at the first three lines only: inputs that agree on them decode alike. */
  lemma TxtIgnoresExtraLines<Num>(numerals: Numerals<Num>, lines: seq<string>, other: seq<string>)
    requires |lines| >= 3 && |other| >= 3 && lines[..3] == other[..3]
    ensures DecodeTxt(numerals, lines) == DecodeTxt(numerals, other)
  {
  }

  /** The encoded text is read back as exactly three lines: the name and the two rendered numbers. */
  lemma TxtEncodeLines<Num(!new)>(numerals: Numerals<Num>, figure: Figure<Num>)
    requires NoLineBreak(figure.name) && FormatsOnOneLine(numerals)
    ensures SplitLines(EncodeTxt(numerals, figure)) ==
              [figure.name, numerals.format(figure.width), numerals.format(figure.height)]
  {
    var w := numerals.format(figure.width);
    var h := numerals.format(figure.height);
    assert EncodeTxt(numerals, figure) == figure.name + "\n" + (w + "\n" + h);
    SplitFirstLine(figure.name, w + "\n" + h);
    SplitFirstLine(w, h);
    SplitOneLine(h);
  }

  /** Decoding what the text codec encoded keeps the name and re-parses the rendered numbers. */
  lemma TxtRoundTrip<Num(!new)>(numerals: Numerals<Num>, figure: Figure<Num>)
    requires NoLineBreak(figure.name) && FormatsOnOneLine(numerals)
    ensures var w := numerals.parse(numerals.format(figure.width));
            var h := numerals.parse(numerals.format(figure.height));
            DecodeTxt(numerals, SplitLines(EncodeTxt(numerals, figure))) ==
              if w.None? then Failure(NumberParse(numerals.format(figure.width)))
              else if h.None? then Failure(NumberParse(numerals.format(figure.height)))
              else Success(Figure(figure.name, w.value, h.value))
  {
    TxtEncodeLines(numerals, figure);
  }

  // ---------------------------------------------------------------------------------------------
  // JSON and XML codecs
  // ---------------------------------------------------------------------------------------------

  /** `LoadJsonFigure`: the whole text handed to the JSON library. */
  function DecodeJson<Num>(json: JsonCodec<Num>, text: string): (r: Result<Figure<Num>, Error>)
    ensures r.Success? <==> json.deserialize(text).Some?
    ensures r.Success? ==> json.deserialize(text) == Some(r.value)
    ensures r.Failure? ==> r.error == JsonInvalid
  {
    match json.deserialize(text)
    case Some(figure) => Success(figure)
    case None => Failure(JsonInvalid)
  }

  /** `LoadXmlFigure`: a stub that always throws. */
  function DecodeXml<Num>(): (r: Result<Figure<Num>, Error>)
    ensures r.Failure? && r.error.XmlNotImplemented? && r.error.direction == Reading
  {
    Failure(XmlNotImplemented(Reading))
  }

  /** `SaveXmlFigure`: a stub that always throws. */
  function EncodeXml(): (r: Result<string, Error>)
    ensures r.Failure? && r.error.XmlNotImplemented? && r.error.direction == Writing
  {
    Failure(XmlNotImplemented(Writing))
  }

  // ---------------------------------------------------------------------------------------------
  // Dispatch on the extension
  // ---------------------------------------------------------------------------------------------

  /** `LoadFigure`: the figure stored in a file at `path` whose text is `contents`. */
  function LoadFigure<Num>(numerals: Numerals<Num>, json: JsonCodec<Num>, path: string, contents: string)
    : (r: Result<Figure<Num>, Error>)
    ensures r == Failure(Unsupported) <==> !IsRegistered(Extension(path))
    ensures r == Failure(XmlNotImplemented(Reading)) <==> Extension(path) == ".xml"
    ensures r.Failure? && (r.error == InvalidData || r.error.NumberParse?) ==> Extension(path) == ".txt"
    ensures r.Failure? && r.error == JsonInvalid ==> Extension(path) == ".json"
    ensures r != Failure(XmlNotImplemented(Writing))
    ensures Extension(path) == ".txt" ==> r == DecodeTxt(numerals, SplitLines(contents))
    ensures Extension(path) == ".json" ==> r == DecodeJson(json, contents)
  {
    match Extension(path)
    case ".txt" => DecodeTxt(numerals, SplitLines(contents))
    case ".json" => DecodeJson(json, contents)
    case ".xml" => DecodeXml()
    case _ => Failure(Unsupported)
  }

  /** `SaveFigure`: the text written to `path` for `figure`. */
  function SaveFigure<Num>(numerals: Numerals<Num>, json: JsonCodec<Num>, path: string, figure: Figure<Num>)
    : (r: Result<string, Error>)
    ensures r == Failure(Unsupported) <==> !IsRegistered(Extension(path))
    ensures r == Failure(XmlNotImplemented(Writing)) <==> Extension(path) == ".xml"
    ensures r.Success? <==> Extension(path) == ".txt" || Extension(path) == ".json"
    ensures Extension(path) == ".txt" ==> r == Success(EncodeTxt(numerals, figure))
    ensures Extension(path) == ".json" ==> r == Success(json.serialize(figure))
  {
    match Extension(path)
    case ".txt" => Success(EncodeTxt(numerals, figure))
    case ".json" => Success(json.serialize(figure))
    case ".xml" => EncodeXml()
    case _ => Failure(Unsupported)
  }

  /** Load and save agree on what a path means: both reject the same extensions as unsupported,
      both fail on XML, and a path that can be saved is never unsupported when loaded. */
  lemma LoadSaveAgree<Num>(numerals: Numerals<Num>, json: JsonCodec<Num>, path: string,
                           contents: string, figure: Figure<Num>)
    ensures LoadFigure(numerals, json, path, contents) == Failure(Unsupported) <==>
            SaveFigure(numerals, json, path, figure) == Failure(Unsupported)
    ensures LoadFigure(numerals, json, path, contents).Failure? &&
            LoadFigure(numerals, json, path, contents).error.XmlNotImplemented? <==>
            SaveFigure(numerals, json, path, figure).Failure? &&
            SaveFigure(numerals, json, path, figure).error.XmlNotImplemented?
    ensures SaveFigure(numerals, json, path, figure).Success? ==>
            LoadFigure(numerals, json, path, contents).Failure? ==>
            LoadFigure(numerals, json, path, contents).error in {InvalidData, JsonInvalid} ||
            LoadFigure(numerals, json, path, contents).error.NumberParse?
  {
  }

  /** Every path ending in ".xml" fails in both directions with the not-implemented error,
      whatever the file holds and whatever figure is saved. */
  lemma XmlAlwaysFails<Num>(numerals: Numerals<Num>, json: JsonCodec<Num>, stem: string,
                            contents: string, figure: Figure<Num>)
    ensures LoadFigure(numerals, json, stem + ".xml", contents) == Failure(XmlNotImplemented(Reading))
    ensures SaveFigure(numerals, json, stem + ".xml", figure) == Failure(XmlNotImplemented(Writing))
  {
    ExtensionOfSuffix(stem, ".xml");
  }

  /** A path ending in an extension without a codec is rejected as unsupported in both directions;
      this covers differently-cased forms such as ".TXT". */
  lemma UnregisteredExtensionFails<Num>(numerals: Numerals<Num>, json: JsonCodec<Num>, stem: string,
                                        ext: string, contents: string, figure: Figure<Num>)
    requires IsExtensionToken(ext) && !IsRegistered(ext)
    ensures LoadFigure(numerals, json, stem + ext, contents) == Failure(Unsupported)
    ensures SaveFigure(numerals, json, stem + ext, figure) == Failure(Unsupported)
  {
    ExtensionOfSuffix(stem, ext);
  }

  /** A path without any dot has no extension and is unsupported in both directions. */
  lemma NoExtensionFails<Num>(numerals: Numerals<Num>, json: JsonCodec<Num>, path: string,
                              contents: string, figure: Figure<Num>)
    requires forall j :: 0 <= j < |path| ==> path[j] != '.'
    ensures LoadFigure(numerals, json, path, contents) == Failure(Unsupported)
    ensures SaveFigure(numerals, json, path, figure) == Failure(Unsupported)
  {
    ExtensionWithoutDot(path);
  }

  /** A ".txt" path is decoded by the text codec from the lines of its text. */
  lemma LoadTxtPath<Num>(numerals: Numerals<Num>, json: JsonCodec<Num>, stem: string, contents: string)
    ensures LoadFigure(numerals, json, stem + ".txt", contents) == DecodeTxt(numerals, SplitLines(contents))
  {
    ExtensionOfSuffix(stem, ".txt");
  }

  /** Loading a ".txt" path of fewer than three lines fails with invalid data, whatever the lines. */
  lemma TxtFileTooShort<Num>(numerals: Numerals<Num>, json: JsonCodec<Num>, stem: string, contents: string)
    requires |SplitLines(contents)| < 3
    ensures LoadFigure(numerals, json, stem + ".txt", contents) == Failure(InvalidData)
  {
    LoadTxtPath(numerals, json, stem, contents);
  }

  lemma KeepsFirstThreeLines(contents: string, extra: string)
    requires |SplitLines(contents)| >= 3 && extra != [] && IsLineBreak(extra[0])
    ensures |SplitLines(contents + extra)| >= 3
    ensures SplitLines(contents + extra)[..3] == SplitLines(contents)[..3]
  {
    var lines, longer := SplitLines(contents), SplitLines(contents + extra);
    SplitLinesPrefix(contents, extra);
    assert lines == longer[..|lines|];
  }

  /** Text appended after a line break to a ".txt" file that already has three lines changes
      nothing that is loaded. */
  lemma TxtFileIgnoresTrailingText<Num>(numerals: Numerals<Num>, json: JsonCodec<Num>, stem: string,
                                        contents: string, extra: string)
    requires |SplitLines(contents)| >= 3 && extra != [] && IsLineBreak(extra[0])
    ensures LoadFigure(numerals, json, stem + ".txt", contents + extra) ==
            LoadFigure(numerals, json, stem + ".txt", contents)
  {
    LoadTxtPath(numerals, json, stem, contents);
    LoadTxtPath(numerals, json, stem, contents + extra);
    KeepsFirstThreeLines(contents, extra);
    TxtIgnoresExtraLines(numerals, SplitLines(contents + extra), SplitLines(contents));
  }

  /** Saving a figure to a ".txt" path and loading the text written gives the figure back, with
      each dimension replaced by the parse of its rendering. */
  lemma TxtFileRoundTrip<Num(!new)>(numerals: Numerals<Num>, json: JsonCodec<Num>, stem: string, figure: Figure<Num>)
    requires NoLineBreak(figure.name) && FormatsOnOneLine(numerals)
    ensures var saved := SaveFigure(numerals, json, stem + ".txt", figure);
            var w := numerals.parse(numerals.format(figure.width));
            var h := numerals.parse(numerals.format(figure.height));
            saved.Success? &&
            LoadFigure(numerals, json, stem + ".txt", saved.value) ==
              if w.None? then Failure(NumberParse(numerals.format(figure.width)))
              else if h.None? then Failure(NumberParse(numerals.format(figure.height)))
              else Success(Figure(figure.name, w.value, h.value))
  {
    LoadTxtPath(numerals, json, stem, EncodeTxt(numerals, figure));
    ExtensionOfSuffix(stem, ".txt");
    TxtRoundTrip(numerals, figure);
  }

  /** When rendering numbers round-trips, saving to a ".txt" path and loading gives back exactly
      the figure saved. */
  lemma TxtFileRoundTripExact<Num(!new)>(numerals: Numerals<Num>, json: JsonCodec<Num>, stem: string,
                                   figure: Figure<Num>)
    requires NoLineBreak(figure.name) && FormatsOnOneLine(numerals) && FormatRoundTrips(numerals)
    ensures var saved := SaveFigure(numerals, json, stem + ".txt", figure);
            saved.Success? && LoadFigure(numerals, json, stem + ".txt", saved.value) == Success(figure)
  {
    TxtFileRoundTrip(numerals, json, stem, figure);
    assert numerals.parse(numerals.format(figure.width)) == Some(figure.width);
    assert numerals.parse(numerals.format(figure.height)) == Some(figure.height);
  }
}
