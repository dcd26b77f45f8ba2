/** The value parsers of the command line of image_generator.py and the
    dispatch from a ground type to its texture generator.

    `int(text)` is `Numerals.ParseInt`: an optional sign and one or more
    decimal digits. The generators themselves (grounds/textures.py) are not
    part of this model; the dispatch yields which one is called and with
    which arguments. */
module ImageGenerator {
  import opened Wrappers
  import Numerals

  /** The errors the parsers and the dispatch raise: `ArgumentTypeError`
      with its message's subject, and the `ValueError` of an unknown ground
      type. */
  datatype CliError =
    | NotAnInteger(text: string)                    // '"…" is not an integer'
    | NegativeNumber                                // 'Negative numbers are not allowed.'
    | NotAResolution(text: string)                  // too many or too few 'x's
    | InvalidResolution(text: string, part: string) // a side that is not an integer
    | UnknownGroundType(name: string)               // ValueError('Unknown ground type …')

  // ---------------------------------------------------------------------
  // uint

  /** `uint(text)`: the integer text spells, when it is not negative. */
  function Uint(text: string): (r: Result<nat, CliError>)
    ensures r.Success? <==> Numerals.ParseInt(text).Some? && Numerals.ParseInt(text).value >= 0
    ensures r.Success? ==> r.value == Numerals.ParseInt(text).value
  {
    match Numerals.ParseInt(text)
    case None => Failure(NotAnInteger(text))
    case Some(n) => if n < 0 then Failure(NegativeNumber) else Success(n)
  }

  /** `uint(str(n)) == n` for every n >= 0. */
  lemma UintRoundTrip(n: nat)
    ensures Uint(Numerals.IntToStr(n)) == Success(n)
  {
    Numerals.IntToStrRoundTrip(n);
  }

  /** The numeral of a negative number is an integer, but not allowed. */
  lemma UintRejectsNegative(n: int)
    requires n < 0
    ensures Uint(Numerals.IntToStr(n)) == Failure(NegativeNumber)
  {
    Numerals.IntToStrRoundTrip(n);
  }

  /** Text that is not an optional sign followed by digits is not an
      integer, and the error names the text. */
  lemma UintRejectsText(text: string)
    requires !(|text| > 0 && Numerals.AllDigits(text))
    requires !(|text| > 1 && (text[0] == '-' || text[0] == '+') && Numerals.AllDigits(text[1..]))
    ensures Uint(text) == Failure(NotAnInteger(text))
  {
    Numerals.ParseIntAccepts(text);
  }

  // ---------------------------------------------------------------------
  // parse_resolution

  /** `parse_resolution(text)`: the width and height of a "[width]x[height]"
      string. The width is converted first, so when both sides are invalid
      the error names the width. */
  function ParseResolution(text: string): (r: Result<(int, int), CliError>)
    ensures r.Success? ==> |Numerals.Split(text, 'x')| == 2
  {
    var parts := Numerals.Split(text, 'x');
    if |parts| != 2 then Failure(NotAResolution(text))
    else match (Numerals.ParseInt(parts[0]), Numerals.ParseInt(parts[1]))
      case (None, _) => Failure(InvalidResolution(text, parts[0]))
      case (Some(_), None) => Failure(InvalidResolution(text, parts[1]))
      case (Some(width), Some(height)) => Success((width, height))
  }

  /** A string with one 'x' resolves to the integers on either side, or
      fails naming the first side that is not one. */
  lemma ResolutionOf(a: string, b: string)
    requires 'x' !in a && 'x' !in b
    ensures var r := ParseResolution(a + "x" + b);
      (Numerals.ParseInt(a).None? ==> r == Failure(InvalidResolution(a + "x" + b, a))) &&
      (Numerals.ParseInt(a).Some? && Numerals.ParseInt(b).None? ==> r == Failure(InvalidResolution(a + "x" + b, b))) &&
      (Numerals.ParseInt(a).Some? && Numerals.ParseInt(b).Some? ==>
         r == Success((Numerals.ParseInt(a).value, Numerals.ParseInt(b).value)))
  {
    Numerals.SplitAt(a, 'x', b);
    Numerals.SplitWithout(b, 'x');
    assert Numerals.Split(a + "x" + b, 'x') == [a, b];
  }

  /** A resolution is read back from the string it came from: the text is
      its two sides joined by the one 'x', and they spell width and height. */
  lemma ResolutionSides(text: string)
    requires ParseResolution(text).Success?
    ensures var parts := Numerals.Split(text, 'x');
      text == parts[0] + "x" + parts[1] &&
      Numerals.ParseInt(parts[0]) == Some(ParseResolution(text).value.0) &&
      Numerals.ParseInt(parts[1]) == Some(ParseResolution(text).value.1)
  {
    var parts := Numerals.Split(text, 'x');
    Numerals.SplitJoin(text, 'x');
    assert Numerals.Join(parts, 'x') == parts[0] + ['x'] + Numerals.Join(parts[1..], 'x');
    assert parts[1..] == [parts[1]];
  }

  /** `parse_resolution(str(w) + 'x' + str(h)) == (w, h)`. */
  lemma ResolutionRoundTrip(width: int, height: int)
    ensures ParseResolution(Numerals.IntToStr(width) + "x" + Numerals.IntToStr(height)) == Success((width, height))
  {
    Numerals.IntToStrRoundTrip(width);
    Numerals.IntToStrRoundTrip(height);
    ResolutionOf(Numerals.IntToStr(width), Numerals.IntToStr(height));
  }

  /** The default resolution '960x540' is 960 by 540. */
  lemma DefaultResolution()
    ensures ParseResolution("960x540") == Success((960, 540))
  {
    ResolutionRoundTrip(960, 540);
    assert Numerals.NatToStr(96) == "96";
    assert Numerals.NatToStr(54) == "54";
    assert Numerals.IntToStr(960) + "x" + Numerals.IntToStr(540) == "960x540";
  }

  /** Without an 'x' there is no resolution. */
  lemma NoSeparatorRejected(text: string)
    requires 'x' !in text
    ensures ParseResolution(text) == Failure(NotAResolution(text))
  {
    Numerals.SplitWithout(text, 'x');
  }

  /** With two 'x's there is none either. */
  lemma TwoSeparatorsRejected(a: string, b: string, c: string)
    requires 'x' !in a && 'x' !in b
    ensures ParseResolution(a + "x" + b + "x" + c) == Failure(NotAResolution(a + "x" + b + "x" + c))
  {
    Numerals.SplitAt(b, 'x', c);
    assert a + "x" + b + "x" + c == a + "x" + (b + "x" + c);
    Numerals.SplitAt(a, 'x', b + "x" + c);
  }

  /** The split is case-sensitive: '960X540' is not a resolution. */
  lemma UppercaseRejected()
    ensures ParseResolution("960X540") == Failure(NotAResolution("960X540"))
  {
    NoSeparatorRejected("960X540");
  }

  // ---------------------------------------------------------------------
  // ground_textures

  /** The texture generators of grounds/textures.py. */
  datatype Generator = Cobblestone | Asphalt | Slate

  /** One call of a texture generator: which, with how many defects, into
      which directory. */
  datatype TextureCall = TextureCall(generator: Generator, defects: int, outputPath: string)

  /** `os.path.join(directory, name)` for a relative name: a separator is
      put between them unless the directory is empty or already ends in
      one. */
  function JoinPath(directory: string, name: string): (r: string)
    ensures |directory| + |name| <= |r| && r[..|directory|] == directory && r[|r| - |name|..] == name
    ensures directory == [] ==> r == name
    ensures directory != [] ==>
      |r| - |name| - 1 >= 0 && r[|r| - |name| - 1] == '/' &&
      |r| == |directory| + |name| + (if directory[|directory| - 1] == '/' then 0 else 1)
  {
    if directory == [] || directory[|directory| - 1] == '/' then directory + name
    else directory + "/" + name
  }

  /** The name the command line gives a generator. */
  function GeneratorName(g: Generator): string {
    match g
    case Cobblestone => "cobblestone"
    case Asphalt => "asphalt"
    case Slate => "slate"
  }

  /** The ground types the command line accepts (`--ground-type`). */
  function GroundTypes(): seq<string> { ["cobblestone", "asphalt", "slate"] }

  /** `ground_textures(output, ground_type, defects)`: the generator call it
      makes, or the error for an unknown ground type. */
  function GroundTextures(output: string, groundType: string, defects: int): (r: Result<TextureCall, CliError>)
    ensures r.Success? <==> groundType in GroundTypes()
    ensures r.Failure? ==> r.error == UnknownGroundType(groundType)
    ensures r.Success? ==> GeneratorName(r.value.generator) == groundType
    ensures r.Success? ==> r.value.defects == defects && r.value.outputPath == JoinPath(output, "road_textures")
  {
    var path := JoinPath(output, "road_textures");
    if groundType == "cobblestone" then Success(TextureCall(Cobblestone, defects, path))
    else if groundType == "asphalt" then Success(TextureCall(Asphalt, defects, path))
    else if groundType == "slate" then Success(TextureCall(Slate, defects, path))
    else Failure(UnknownGroundType(groundType))
  }
}
