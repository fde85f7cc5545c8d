/** `TextEditor`: holds the current figure, replaces it on a successful load, edits it field by
    field, and saves it. The console is left out: the lines the user types are parameters, and
    `EditFigure` returns the warnings it would print. */
module Editor {
  import opened Wrappers
  import opened Figures
  import opened FileIO

  /** The new value of a numeric field: the parse of the input when the input is non-empty and
      parses, and the current value otherwise. */
  function NumberEdit<Num>(numerals: Numerals<Num>, current: Num, input: string): (r: Num)
    ensures input == [] ==> r == current
    ensures input != [] && numerals.parse(input).None? ==> r == current
    ensures input != [] && numerals.parse(input).Some? ==> r == numerals.parse(input).value
  {
    if input != [] then
      match numerals.parse(input)
      case Some(v) => v
      case None => current
    else current
  }

  /** The figure after one edit session with inputs for the name, the width and the height. */
  function ApplyEdit<Num>(numerals: Numerals<Num>, figure: Figure<Num>,
                          nameIn: string, widthIn: string, heightIn: string): (r: Figure<Num>)
    ensures nameIn == [] ==> r.name == figure.name
    ensures nameIn != [] ==> r.name == nameIn
    ensures widthIn == [] || numerals.parse(widthIn).None? ==> r.width == figure.width
    ensures widthIn != [] && numerals.parse(widthIn).Some? ==> r.width == numerals.parse(widthIn).value
    ensures heightIn == [] || numerals.parse(heightIn).None? ==> r.height == figure.height
    ensures heightIn != [] && numerals.parse(heightIn).Some? ==> r.height == numerals.parse(heightIn).value
  {
    Figure(if nameIn == [] then figure.name else nameIn,
           NumberEdit(numerals, figure.width, widthIn),
           NumberEdit(numerals, figure.height, heightIn))
  }

  const WIDTH_WARNING := "Invalid input for width. Width not changed."
  const HEIGHT_WARNING := "Invalid input for height. Height not changed."

  /** The warnings printed by one edit session, in order: one per non-empty numeric input that
      does not parse. */
  function EditWarnings<Num>(numerals: Numerals<Num>, widthIn: string, heightIn: string): (w: seq<string>)
    ensures WIDTH_WARNING in w <==> widthIn != [] && numerals.parse(widthIn).None?
    ensures HEIGHT_WARNING in w <==> heightIn != [] && numerals.parse(heightIn).None?
    ensures forall s :: s in w ==> s == WIDTH_WARNING || s == HEIGHT_WARNING
    ensures |w| == (if widthIn != [] && numerals.parse(widthIn).None? then 1 else 0) +
                   (if heightIn != [] && numerals.parse(heightIn).None? then 1 else 0)
    ensures |w| <= 2
    ensures |w| == 2 ==> w == [WIDTH_WARNING, HEIGHT_WARNING]
  {
    (if widthIn != [] && numerals.parse(widthIn).None? then [WIDTH_WARNING] else []) +
    (if heightIn != [] && numerals.parse(heightIn).None? then [HEIGHT_WARNING] else [])
  }

  /** Empty inputs for all three fields leave the figure as it was. */
  lemma EditWithEmptyInputs<Num>(numerals: Numerals<Num>, figure: Figure<Num>)
    ensures ApplyEdit(numerals, figure, "", "", "") == figure
    ensures EditWarnings(numerals, "", "") == []
  {
  }

  /** Each field's new value depends only on its own old value and its own input: the edit of one
      field never changes another. */
  lemma EditFieldsIndependent<Num>(numerals: Numerals<Num>, f: Figure<Num>, g: Figure<Num>,
                                   nameIn: string, widthIn: string, heightIn: string,
                                   nameIn': string, widthIn': string, heightIn': string)
    ensures f.name == g.name && nameIn == nameIn' ==>
            ApplyEdit(numerals, f, nameIn, widthIn, heightIn).name ==
            ApplyEdit(numerals, g, nameIn', widthIn', heightIn').name
    ensures f.width == g.width && widthIn == widthIn' ==>
            ApplyEdit(numerals, f, nameIn, widthIn, heightIn).width ==
            ApplyEdit(numerals, g, nameIn', widthIn', heightIn').width
    ensures f.height == g.height && heightIn == heightIn' ==>
            ApplyEdit(numerals, f, nameIn, widthIn, heightIn).height ==
            ApplyEdit(numerals, g, nameIn', widthIn', heightIn').height
  {
  }

  /** Repeating an edit session with the same inputs changes nothing further. */
  lemma EditIdempotent<Num>(numerals: Numerals<Num>, figure: Figure<Num>,
                            nameIn: string, widthIn: string, heightIn: string)
    ensures var once := ApplyEdit(numerals, figure, nameIn, widthIn, heightIn);
            ApplyEdit(numerals, once, nameIn, widthIn, heightIn) == once
  {
  }

  /** A field keeps its value exactly when its input is empty or, for a number, does not parse
      (or happens to give the value it already has). */
  lemma EditKeepsField<Num>(numerals: Numerals<Num>, figure: Figure<Num>,
                            nameIn: string, widthIn: string, heightIn: string)
    ensures var r := ApplyEdit(numerals, figure, nameIn, widthIn, heightIn);
            (r.name == figure.name <==> nameIn == [] || nameIn == figure.name) &&
            (r.width == figure.width <==>
               widthIn == [] || numerals.parse(widthIn).None? || numerals.parse(widthIn) == Some(figure.width)) &&
            (r.height == figure.height <==>
               heightIn == [] || numerals.parse(heightIn).None? || numerals.parse(heightIn) == Some(figure.height))
  {
  }

  /** The editor's state: the figure loaded last, `None` before any load has succeeded. */
  class TextEditor<Num> {
    const numerals: Numerals<Num>
    const json: JsonCodec<Num>
    var currentFigure: Option<Figure<Num>>

    constructor (numerals: Numerals<Num>, json: JsonCodec<Num>)
      ensures this.numerals == numerals && this.json == json
      ensures currentFigure == None
    {
      this.numerals := numerals;
      this.json := json;
      currentFigure := None;
    }

    /** `LoadFile`: on success the loaded figure replaces the current one; on failure the
        exception is returned and the current figure is left as it was. */
    method LoadFile(path: string, contents: string) returns (failure: Option<Error>)
      modifies this
      ensures var loaded := LoadFigure(numerals, json, path, contents);
              if loaded.Success? then currentFigure == Some(loaded.value) && failure == None
              else currentFigure == old(currentFigure) && failure == Some(loaded.error)
    {
      var loaded := LoadFigure(numerals, json, path, contents);
      match loaded
      case Success(figure) =>
        currentFigure := Some(figure);
        failure := None;
      case Failure(e) =>
        failure := Some(e);
    }

    /** `EditFigure`: reads the three inputs in turn and updates the current figure one field at a
        time. */
    method EditFigure(nameIn: string, widthIn: string, heightIn: string) returns (warnings: seq<string>)
      requires currentFigure.Some?
      modifies this
      ensures currentFigure == Some(ApplyEdit(numerals, old(currentFigure).value, nameIn, widthIn, heightIn))
      ensures warnings == EditWarnings(numerals, widthIn, heightIn)
    {
      warnings := [];
      if nameIn != [] {
        currentFigure := Some(currentFigure.value.(name := nameIn));
      }
      if widthIn != [] {
        match numerals.parse(widthIn)
        case Some(width) =>
          currentFigure := Some(currentFigure.value.(width := width));
        case None =>
          warnings := warnings + [WIDTH_WARNING];
      }
      if heightIn != [] {
        match numerals.parse(heightIn)
        case Some(height) =>
          currentFigure := Some(currentFigure.value.(height := height));
        case None =>
          warnings := warnings + [HEIGHT_WARNING];
      }
    }

    /** `SaveFile`: the text written for the current figure, or the exception raised. */
    method SaveFile(path: string) returns (r: Result<string, Error>)
      requires currentFigure.Some?
      ensures r == SaveFigure(numerals, json, path, currentFigure.value)
    {
      r := SaveFigure(numerals, json, path, currentFigure.value);
    }
  }
}
