/**
 * ImageGenerator: an image of the current reading in one size, with the renderer it was
 * built with, cached as encoded bytes until a newer reading arrives.
 */
module Generator {
  import opened Common
  import opened GoTime
  import opened TimeParse
  import opened ImageDisplay
  import opened ImageCache
  import Monnit
  import MessageDates

  /** A renderer: width, height, temperature text, last-modified text and message to an image. */
  type Renderer = (int, int, string, string, string) -> Result<Image, Error>

  class ImageGenerator {
    const width: int
    const height: int
    const msg: string
    const generateImage: Renderer
    var buffer: seq<byte>
    var lastUpdate: Time

    /** The cache fields, as the shared protocol sees them. */
    function State(): Cache
      reads this
    {
      Cache(buffer, lastUpdate)
    }

    /** What the renderer is asked to draw for a reading. */
    function Render(last: Monnit.SensorDataMessage): Result<Image, Error> {
      generateImage(width, height, last.temperature.text, MessageDates.String(last.messageDate), msg)
    }

    /** NewImageGenerator: the given size, message and renderer, an empty buffer, never updated. */
    constructor (width: int, height: int, msg: string, generateImage: Renderer)
      ensures this.width == width && this.height == height && this.msg == msg
      ensures this.generateImage == generateImage
      ensures State() == Fresh
    {
      this.width := width;
      this.height := height;
      this.msg := msg;
      this.generateImage := generateImage;
      buffer := [];
      lastUpdate := ZeroTime;
    }

    /** GetImageBytes: the bytes of the cached image. */
    method GetImageBytes() returns (bytes: seq<byte>)
      ensures bytes == State().buffer
    {
      bytes := buffer;
    }

    /** NeedsUpdate: whether the cached image shows a reading strictly older than `check`. */
    method NeedsUpdate(check: Time) returns (needed: bool)
      ensures needed <==> ImageCache.NeedsUpdate(State(), check)
      ensures needed <==> check.sec > lastUpdate.sec || (check.sec == lastUpdate.sec && check.nsec > lastUpdate.nsec)
    {
      needed := Before(lastUpdate, check);
    }

    /**
     * Refresh: render the reading, empty the buffer, encode the image into it, and only
     * when all of that succeeded record the reading's date.
     */
    method Refresh(last: Monnit.SensorDataMessage, encode: Encoder) returns (err: Option<Error>)
      modifies this
      ensures (State(), err) == Refreshed(old(State()), Render(last), encode, last.messageDate)
    {
      var rendered := Render(last);
      if rendered.Err? {
        return Some(rendered.error);
      }
      buffer := [];
      var encoding := encode(rendered.value);
      buffer := buffer + encoding.written;
      assert buffer == encoding.written;
      if encoding.failure.Some? {
        return encoding.failure;
      }
      lastUpdate := last.messageDate;
      return None;
    }
  }

  /**
   * A generator built with the large-display renderer draws, for a reading, its temperature
   * text and "Last updated " before the reading's date in the day layout; for a four-digit
   * year that date text reads back as the reading's Unix second.
   */
  lemma DisplayShowsReading(g: ImageGenerator, load: FontLoader, last: Monnit.SensorDataMessage)
    requires forall w, h, temperature, lastModified, msg ::
               g.generateImage(w, h, temperature, lastModified, msg)
               == GenerateDisplayImage(w, h, temperature, lastModified, msg, load)
    requires load(TitleFont).None? && load(TemperatureFont).None? && load(UpdatedFont).None?
    ensures g.Render(last).Ok?
    ensures |g.Render(last).value.labels| == 3
    ensures g.Render(last).value.labels[1].text == last.temperature.text
    ensures g.Render(last).value.labels[2].text == UpdatedPrefix + MessageDates.String(last.messageDate)
    ensures FourDigitYear(last.messageDate) ==>
              ParseDayLayout(g.Render(last).value.labels[2].text[|UpdatedPrefix|..]) == Some(last.messageDate.sec)
  {
    var r := g.Render(last);
    assert r == GenerateDisplayImage(g.width, g.height, last.temperature.text, MessageDates.String(last.messageDate), g.msg, load);
    assert r.value.labels[2].text[|UpdatedPrefix|..] == MessageDates.String(last.messageDate);
  }

  /**
   * Before any reading has been fetched the store shows the zero reading, and a new
   * generator does not need an update for it.
   */
  lemma NoRedrawBeforeFirstReading(g: ImageGenerator, store: Monnit.Monnit)
    requires g.State() == Fresh && store.lastData.None?
    ensures !ImageCache.NeedsUpdate(g.State(), store.LastReading().messageDate)
  {
  }
}
