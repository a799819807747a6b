/**
 * The image cache protocol that ImageGenerator and Display both follow: a buffer with the
 * last encoded image and the date of the reading it shows. A refresh renders, empties the
 * buffer, encodes into it, and only then records the reading's date. Rendering and PNG
 * encoding are outside the model; what they give is a parameter.
 */
module ImageCache {
  import opened Common
  import opened GoTime
  import opened ImageDisplay

  /**
   * What PNG-encoding an image into the emptied buffer leaves: the bytes written, and the
   * error when the encoder stopped (after writing part of the image, possibly nothing).
   */
  datatype Encoding = Encoding(written: seq<byte>, failure: Option<Error>)

  type Encoder = Image -> Encoding

  /** The two fields a refresh changes. */
  datatype Cache = Cache(buffer: seq<byte>, lastUpdate: Time)

  /** A new cache: an empty buffer, last updated at the zero instant. */
  const Fresh := Cache([], ZeroTime)

  /** NeedsUpdate: the cached image shows a reading strictly older than `check`. */
  predicate NeedsUpdate(c: Cache, check: Time) {
    Before(c.lastUpdate, check)
  }

  /**
   * Refresh as a transition on the cache, for a render outcome, an encoder and the
   * reading's date: the new cache and the error returned.
   */
  function Refreshed(c: Cache, rendered: Result<Image, Error>, encode: Encoder, date: Time): (r: (Cache, Option<Error>))
    ensures rendered.Err? ==> r.1 == Some(rendered.error)
    ensures rendered.Ok? ==> r.1 == encode(rendered.value).failure
  {
    match rendered
    case Err(e) => (c, Some(e))
    case Ok(img) =>
      var encoding := encode(img);
      if encoding.failure.Some? then (Cache(encoding.written, c.lastUpdate), encoding.failure)
      else (Cache(encoding.written, date), None)
  }

  /** A refresh that fails to render returns that error and changes neither field. */
  lemma RenderFailureKeepsCache(c: Cache, e: Error, encode: Encoder, date: Time)
    ensures Refreshed(c, Err(e), encode, date) == (c, Some(e))
  {
  }

  /**
   * A refresh that fails to encode keeps the date but not the image: the buffer holds only
   * what the encoder wrote before failing, whatever it held before.
   */
  lemma EncodeFailureLosesImage(c: Cache, img: Image, encode: Encoder, date: Time)
    requires encode(img).failure.Some?
    ensures Refreshed(c, Ok(img), encode, date).0 == Cache(encode(img).written, c.lastUpdate)
    ensures Refreshed(c, Ok(img), encode, date).1 == encode(img).failure
  {
  }

  /**
   * A successful refresh leaves the encoded image in the buffer and the reading's date as
   * the last update, so the cache no longer needs an update for that reading.
   */
  lemma RefreshedIsCurrent(c: Cache, img: Image, encode: Encoder, date: Time)
    requires encode(img).failure.None?
    ensures Refreshed(c, Ok(img), encode, date) == (Cache(encode(img).written, date), None)
    ensures !NeedsUpdate(Refreshed(c, Ok(img), encode, date).0, date)
  {
  }

  /** Only a successful refresh moves the last update; every failure leaves it as it was. */
  lemma OnlySuccessMovesDate(c: Cache, rendered: Result<Image, Error>, encode: Encoder, date: Time)
    ensures var r := Refreshed(c, rendered, encode, date);
            r.1.None? ==> r.0.lastUpdate == date
    ensures var r := Refreshed(c, rendered, encode, date);
            r.1.Some? ==> r.0.lastUpdate == c.lastUpdate
  {
  }

  /**
   * The last update is not monotone: a successful refresh with an older reading moves it
   * back, and the cache then needs an update for the date it had just shown.
   */
  lemma OlderReadingMovesBack(c: Cache, img: Image, encode: Encoder, date: Time)
    requires encode(img).failure.None? && Before(date, c.lastUpdate)
    ensures Before(Refreshed(c, Ok(img), encode, date).0.lastUpdate, c.lastUpdate)
    ensures NeedsUpdate(Refreshed(c, Ok(img), encode, date).0, c.lastUpdate)
  {
  }

  /** A new cache does not need an update for a reading dated at the zero instant. */
  lemma FreshNotStaleAtZero()
    ensures !NeedsUpdate(Fresh, ZeroTime)
    ensures forall t :: NeedsUpdate(Fresh, t) <==> Before(ZeroTime, t)
  {
  }

  // ---------------------------------------------------------------------------------------
  // Histories of refreshes

  /** One call of Refresh: what rendering gave, the encoder, and the reading's date. */
  datatype Attempt = Attempt(rendered: Result<Image, Error>, encode: Encoder, date: Time)

  predicate Succeeds(a: Attempt) {
    a.rendered.Ok? && a.encode(a.rendered.value).failure.None?
  }

  /** The cache after the attempts, in order. */
  function Run(c: Cache, attempts: seq<Attempt>): Cache
    decreases |attempts|
  {
    if attempts == [] then c
    else Run(Refreshed(c, attempts[0].rendered, attempts[0].encode, attempts[0].date).0, attempts[1..])
  }

  /** The successful attempts come with readings that never go back in time, none before `from`. */
  predicate DatesNeverGoBack(from: Time, attempts: seq<Attempt>) {
    && (forall i :: 0 <= i < |attempts| && Succeeds(attempts[i]) ==> !Before(attempts[i].date, from))
    && (forall i, j :: 0 <= i < j < |attempts| && Succeeds(attempts[i]) && Succeeds(attempts[j]) ==>
          !Before(attempts[j].date, attempts[i].date))
  }

  /**
   * When successful refreshes come with readings that never go back in time, the cache
   * needs an update for `check` exactly when it needed one at the start and no successful
   * refresh showed a reading dated `check` or later.
   */
  lemma {:induction false} NeedsUpdateAfterRun(c: Cache, attempts: seq<Attempt>, check: Time)
    requires DatesNeverGoBack(c.lastUpdate, attempts)
    ensures NeedsUpdate(Run(c, attempts), check) <==>
              NeedsUpdate(c, check)
              && forall i :: 0 <= i < |attempts| && Succeeds(attempts[i]) ==> Before(attempts[i].date, check)
    decreases |attempts|
  {
    if attempts != [] {
      var a := attempts[0];
      var next := Refreshed(c, a.rendered, a.encode, a.date).0;
      var rest := attempts[1..];
      assert DatesNeverGoBack(next.lastUpdate, rest) by {
        forall i | 0 <= i < |rest| && Succeeds(rest[i])
          ensures !Before(rest[i].date, next.lastUpdate)
        {
          assert rest[i] == attempts[i + 1];
        }
        forall i, j | 0 <= i < j < |rest| && Succeeds(rest[i]) && Succeeds(rest[j])
          ensures !Before(rest[j].date, rest[i].date)
        {
          assert rest[i] == attempts[i + 1] && rest[j] == attempts[j + 1];
        }
      }
      NeedsUpdateAfterRun(next, rest, check);
      assert forall i :: 0 <= i < |rest| ==> rest[i] == attempts[i + 1];
      if Succeeds(a) {
        assert next.lastUpdate == a.date;
      } else {
        assert next.lastUpdate == c.lastUpdate;
      }
      assert (forall i :: 0 <= i < |attempts| && Succeeds(attempts[i]) ==> Before(attempts[i].date, check))
         <==> (Succeeds(a) ==> Before(a.date, check))
              && (forall i :: 0 <= i < |rest| && Succeeds(rest[i]) ==> Before(rest[i].date, check));
    }
  }

  /**
   * Without that order the equivalence fails: after a refresh showing a reading dated `t`
   * and then one showing an older reading, the cache needs an update for `t` again.
   */
  lemma OutOfOrderRefreshesNeedUpdate(c: Cache, newer: Attempt, older: Attempt)
    requires Succeeds(newer) && Succeeds(older) && Before(older.date, newer.date)
    ensures NeedsUpdate(Run(c, [newer, older]), newer.date)
  {
    var c1 := Refreshed(c, newer.rendered, newer.encode, newer.date).0;
    var c2 := Refreshed(c1, older.rendered, older.encode, older.date).0;
    assert [newer, older][1..] == [older];
    assert Run(c, [newer, older]) == Run(c1, [older]);
    assert Run(c1, [older]) == Run(c2, []);
  }
}
