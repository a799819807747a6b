/**
 * The two large-display renderers. Pixels are not modelled: an image is its size and the
 * texts drawn on it, in drawing order, each with the font face loaded when it was drawn.
 * Loading a font face may fail, so the font loader is a parameter.
 */
module ImageDisplay {
  import opened Common
  import opened Strings

  /** A font face as it is requested: font file and point size. */
  datatype Font = Font(path: string, points: int)

  /** A text drawn on the canvas, and the face it was drawn in. */
  datatype Label = Label(text: string, font: Font)

  /** A rendered picture, reduced to its size and its texts in drawing order. */
  datatype Image = Image(width: int, height: int, labels: seq<Label>)

  /** What loading a font face gives: an error, or none when the face is now in use. */
  type FontLoader = Font -> Option<Error>

  const TitleFont := Font("fonts/Roboto-Bold.ttf", 400)
  const TemperatureFont := Font("fonts/Roboto-Bold.ttf", 800)
  const UpdatedFont := Font("fonts/Roboto-LightItalic.ttf", 100)
  const MaintenanceFont := Font("fonts/Roboto-Regular.ttf", 400)

  const Title := "POOL TEMP"
  const UpdatedPrefix := "Last updated "

  /**
   * GenerateDisplayImage: the title, the temperature, and "Last updated " before the
   * last-modified text, each after loading its face; the first face that fails to load
   * ends rendering with that error and no image. The message is not drawn.
   */
  function GenerateDisplayImage(width: int, height: int, temperature: string, lastModified: string,
                                msg: string, load: FontLoader): (r: Result<Image, Error>)
    ensures r.Ok? <==> load(TitleFont).None? && load(TemperatureFont).None? && load(UpdatedFont).None?
    ensures load(TitleFont).Some? ==> r == Err(load(TitleFont).value)
    ensures load(TitleFont).None? && load(TemperatureFont).Some? ==> r == Err(load(TemperatureFont).value)
    ensures load(TitleFont).None? && load(TemperatureFont).None? && load(UpdatedFont).Some? ==>
              r == Err(load(UpdatedFont).value)
    ensures r.Ok? ==> r.value.width == width && r.value.height == height
    ensures r.Ok? ==> |r.value.labels| == 3 && r.value.labels[0].text == Title
                      && r.value.labels[1].text == temperature
                      && r.value.labels[2].text == UpdatedPrefix + lastModified
  {
    if load(TitleFont).Some? then Err(load(TitleFont).value)
    else if load(TemperatureFont).Some? then Err(load(TemperatureFont).value)
    else if load(UpdatedFont).Some? then Err(load(UpdatedFont).value)
    else Ok(Image(width, height, [Label(Title, TitleFont), Label(temperature, TemperatureFont),
                                  Label(UpdatedPrefix + lastModified, UpdatedFont)]))
  }

  /**
   * The lines the maintenance image draws: the message split at "\n", drawn when it has one
   * piece or two; with more pieces the switch has no matching case and nothing is drawn.
   */
  function MaintenanceLines(msg: string): (lines: seq<string>)
    ensures Count(msg, '\n') == 0 ==> lines == [msg]
    ensures Count(msg, '\n') == 1 ==>
              |lines| == 2 && lines[0] + "\n" + lines[1] == msg && '\n' !in lines[0] && '\n' !in lines[1]
    ensures Count(msg, '\n') >= 2 ==> lines == []
  {
    var parts := Split(msg, '\n');
    if |parts| == 2 then
      assert Join(parts[1..], '\n') == parts[1];
      [parts[0], parts[1]]
    else if |parts| == 1 then
      parts
    else
      []
  }

  /**
   * GenerateMaintenanceDisplayImage: one face is loaded (its failure is the error), then
   * the maintenance lines are drawn in it. Temperature and last-modified text are ignored.
   */
  function GenerateMaintenanceDisplayImage(width: int, height: int, temperature: string, lastModified: string,
                                           msg: string, load: FontLoader): (r: Result<Image, Error>)
    ensures r.Err? <==> load(MaintenanceFont).Some?
    ensures r.Err? ==> r.error == load(MaintenanceFont).value
    ensures r.Ok? ==> r.value.width == width && r.value.height == height
                      && |r.value.labels| == |MaintenanceLines(msg)|
                      && forall i :: 0 <= i < |r.value.labels| ==>
                           r.value.labels[i] == Label(MaintenanceLines(msg)[i], MaintenanceFont)
  {
    if load(MaintenanceFont).Some? then Err(load(MaintenanceFont).value)
    else
      var lines := MaintenanceLines(msg);
      Ok(Image(width, height, seq(|lines|, i requires 0 <= i < |lines| => Label(lines[i], MaintenanceFont))))
  }

  /** The maintenance image is the same whatever temperature and last-modified text it is given. */
  lemma MaintenanceIgnoresReading(width: int, height: int, t1: string, m1: string, t2: string, m2: string,
                                  msg: string, load: FontLoader)
    ensures GenerateMaintenanceDisplayImage(width, height, t1, m1, msg, load)
         == GenerateMaintenanceDisplayImage(width, height, t2, m2, msg, load)
  {
  }

  /** With no line break the whole message is the one line drawn. */
  lemma MaintenanceSingleLine(width: int, height: int, temperature: string, lastModified: string,
                              msg: string, load: FontLoader)
    requires '\n' !in msg && load(MaintenanceFont).None?
    ensures GenerateMaintenanceDisplayImage(width, height, temperature, lastModified, msg, load)
         == Ok(Image(width, height, [Label(msg, MaintenanceFont)]))
  {
    CountZero(msg, '\n');
    var r := GenerateMaintenanceDisplayImage(width, height, temperature, lastModified, msg, load);
    assert r.value.labels == [Label(msg, MaintenanceFont)];
  }

  /** A message with one line break is drawn as the text before it over the text after it. */
  lemma MaintenanceTwoLines(width: int, height: int, temperature: string, lastModified: string,
                            upper: string, lower: string, load: FontLoader)
    requires '\n' !in upper && '\n' !in lower && load(MaintenanceFont).None?
    ensures GenerateMaintenanceDisplayImage(width, height, temperature, lastModified, upper + "\n" + lower, load)
         == Ok(Image(width, height, [Label(upper, MaintenanceFont), Label(lower, MaintenanceFont)]))
  {
    var msg := upper + "\n" + lower;
    CountZero(upper, '\n');
    CountZero(lower, '\n');
    CountConcat(upper, "\n", '\n');
    CountConcat(upper + "\n", lower, '\n');
    var lines := MaintenanceLines(msg);
    SplitAtOnlyBreak(upper, lower, lines[0], lines[1]);
    var r := GenerateMaintenanceDisplayImage(width, height, temperature, lastModified, msg, load);
    assert r.value.labels == [Label(upper, MaintenanceFont), Label(lower, MaintenanceFont)];
  }

  /** Two break-free texts joined by one break determine the texts. */
  lemma {:induction false} SplitAtOnlyBreak(a: string, b: string, c: string, d: string)
    requires '\n' !in a && '\n' !in b && '\n' !in c && '\n' !in d
    requires a + "\n" + b == c + "\n" + d
    ensures a == c && b == d
  {
    var s := a + "\n" + b;
    assert forall i :: 0 <= i < |a| ==> s[i] == a[i];
    assert forall i :: 0 <= i < |c| ==> s[i] == c[i];
    assert s[|a|] == '\n' && s[|c|] == '\n';
    assert |a| == |c|;
    assert a == s[..|a|] && c == s[..|c|];
    assert b == s[|a| + 1..] && d == (c + "\n" + d)[|c| + 1..];
  }

  /** A message with two or more line breaks gives a blank image. */
  lemma MaintenanceTooManyLines(width: int, height: int, temperature: string, lastModified: string,
                                msg: string, load: FontLoader)
    requires Count(msg, '\n') >= 2 && load(MaintenanceFont).None?
    ensures GenerateMaintenanceDisplayImage(width, height, temperature, lastModified, msg, load)
         == Ok(Image(width, height, []))
  {
  }
}
