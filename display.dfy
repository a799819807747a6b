/**
 * Display: the older single-size variant of the image cache, with its own fixed renderer
 * (the temperature large in the middle, the last-modified text below it).
 */
module Displays {
  import opened Common
  import opened GoTime
  import opened ImageDisplay
  import opened ImageCache
  import Monnit
  import MessageDates

  const DisplayTemperatureFont := Font("fonts/Roboto-Regular.ttf", 800)
  const DisplayUpdatedFont := Font("fonts/Roboto-LightItalic.ttf", 100)

  class Display {
    const width: int
    const height: int
    var buffer: seq<byte>
    var lastUpdate: Time

    /** The cache fields, as the shared protocol sees them. */
    function State(): Cache
      reads this
    {
      Cache(buffer, lastUpdate)
    }

    /** NewDisplay: the given size, an empty buffer, never updated. */
    constructor (width: int, height: int)
      ensures this.width == width && this.height == height
      ensures State() == Fresh
    {
      this.width := width;
      this.height := height;
      buffer := [];
      lastUpdate := ZeroTime;
    }

    /**
     * Display.generateImage: the temperature, then "Last updated " before the last-modified
     * text, each after loading its face; a face that fails to load ends rendering with that
     * error and no image.
     */
    function GenerateImage(temperature: string, lastModified: string, load: FontLoader): (r: Result<Image, Error>)
      ensures r.Ok? <==> load(DisplayTemperatureFont).None? && load(DisplayUpdatedFont).None?
      ensures load(DisplayTemperatureFont).Some? ==> r == Err(load(DisplayTemperatureFont).value)
      ensures load(DisplayTemperatureFont).None? && load(DisplayUpdatedFont).Some? ==>
                r == Err(load(DisplayUpdatedFont).value)
      ensures r.Ok? ==> r.value.width == width && r.value.height == height
      ensures r.Ok? ==> |r.value.labels| == 2 && r.value.labels[0].text == temperature
                        && r.value.labels[1].text == UpdatedPrefix + lastModified
    {
      if load(DisplayTemperatureFont).Some? then Err(load(DisplayTemperatureFont).value)
      else if load(DisplayUpdatedFont).Some? then Err(load(DisplayUpdatedFont).value)
      else Ok(Image(width, height, [Label(temperature, DisplayTemperatureFont),
                                    Label(UpdatedPrefix + lastModified, DisplayUpdatedFont)]))
    }

    /** What the fixed renderer draws for a reading. */
    function Render(last: Monnit.SensorDataMessage, load: FontLoader): Result<Image, Error> {
      GenerateImage(last.temperature.text, MessageDates.String(last.messageDate), load)
    }

    /** GetImageBytes: the bytes of the cached image. */
    method GetImageBytes() returns (bytes: seq<byte>)
      ensures bytes == State().buffer
    {
      bytes := buffer;
    }

    /** NeedsUpdate: whether the cached image shows a reading strictly older than `check`. */
    method NeedsUpdate(check: Time) returns (needed: bool)
      ensures needed <==> ImageCache.NeedsUpdate(State(), check)
      ensures needed <==> check.sec > lastUpdate.sec || (check.sec == lastUpdate.sec && check.nsec > lastUpdate.nsec)
    {
      needed := Before(lastUpdate, check);
    }

    /**
     * Refresh: render the reading, empty the buffer, encode the image into it, and only
     * when all of that succeeded record the reading's date, older or not.
     */
    method Refresh(last: Monnit.SensorDataMessage, load: FontLoader, encode: Encoder) returns (err: Option<Error>)
      modifies this
      ensures (State(), err) == Refreshed(old(State()), Render(last, load), encode, last.messageDate)
    {
      var rendered := Render(last, load);
      if rendered.Err? {
        return Some(rendered.error);
      }
      buffer := [];
      var encoding := encode(rendered.value);
      buffer := buffer + encoding.written;
      assert buffer == encoding.written;
      if encoding.failure.Some? {
        return encoding.failure;
      }
      lastUpdate := last.messageDate;
      return None;
    }
  }

  /**
   * Whatever the encoder does, a Display refresh whose fonts load leaves the reading's date
   * as the last update exactly when encoding succeeds, even when that date is earlier.
   */
  lemma DisplayRefreshDate(d: Display, last: Monnit.SensorDataMessage, load: FontLoader, encode: Encoder)
    requires load(DisplayTemperatureFont).None? && load(DisplayUpdatedFont).None?
    ensures var r := Refreshed(d.State(), d.Render(last, load), encode, last.messageDate);
            (r.1.None? <==> encode(d.Render(last, load).value).failure.None?)
            && (r.1.None? ==> r.0.lastUpdate == last.messageDate && !ImageCache.NeedsUpdate(r.0, last.messageDate))
            && (r.1.Some? ==> r.0.lastUpdate == d.lastUpdate)
  {
  }
}
