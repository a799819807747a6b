/**
 * The application state and its manager: two counters and the time of the last request,
 * changed in place, and saved to and restored from a state file. The file system and the
 * gob codec are outside the model: the file is a value that Load and Save receive and
 * return, and what creating, encoding and removing do is a parameter.
 */
module AppState {
  import opened Common
  import opened GoTime

  /** State: when the last request came, how often the image was redrawn and requested. */
  datatype State = State(lastRequest: Time, imageRedraws: int64, imageRequests: int64)

  /** The zero State: no request yet, both counters 0. */
  const ZeroState := State(ZeroTime, 0, 0)

  /** The state file as Load finds it. */
  datatype StateFile =
    | Missing                  // opening fails because the file does not exist
    | Unopenable(err: Error)   // opening fails otherwise, so decoding reads nothing and fails
    | Corrupt(partial: State)  // decoding fails after storing the non-zero fields of `partial`
    | Holds(saved: State)      // decoding succeeds with `saved`

  /** How writing the file goes: creating it fails, encoding fails leaving `left`, or it is written. */
  datatype SaveIo =
    | CreateFails(err: Error)
    | EncodeFails(err: Error, left: StateFile)
    | Writes

  /**
   * Decoding a saved State into the one in memory. The gob encoding leaves out fields with
   * their zero value, so only the non-zero fields of `decoded` replace those in memory.
   */
  function Overlay(current: State, decoded: State): (r: State)
    ensures r.lastRequest == (if decoded.lastRequest == ZeroTime then current.lastRequest else decoded.lastRequest)
    ensures r.imageRedraws == (if decoded.imageRedraws == 0 then current.imageRedraws else decoded.imageRedraws)
    ensures r.imageRequests == (if decoded.imageRequests == 0 then current.imageRequests else decoded.imageRequests)
  {
    State(
      if decoded.lastRequest == ZeroTime then current.lastRequest else decoded.lastRequest,
      if decoded.imageRedraws == 0 then current.imageRedraws else decoded.imageRedraws,
      if decoded.imageRequests == 0 then current.imageRequests else decoded.imageRequests)
  }

  /** Decoding into the zero State gives exactly what was saved. */
  lemma OverlayOnZero(decoded: State)
    ensures Overlay(ZeroState, decoded) == decoded
  {
  }

  /** A saved zero State changes nothing in memory. */
  lemma OverlayOfZero(current: State)
    ensures Overlay(current, ZeroState) == current
  {
  }

  /**
   * Decoding into a State that is not zero need not give what was saved: a counter saved
   * as 0 keeps the value in memory.
   */
  lemma OverlayKeepsZeroFields(current: State, decoded: State)
    requires decoded.imageRedraws == 0 && current.imageRedraws != 0
    ensures Overlay(current, decoded) != decoded
  {
  }

  /** StateManager.save: the file afterwards and the error, for the state written. */
  function Saved(state: State, disk: StateFile, io: SaveIo): (r: (StateFile, Option<Error>))
    ensures r.1.None? <==> io.Writes?
    ensures r.1.None? ==> r.0 == Holds(state)
    ensures io.CreateFails? ==> r.0 == disk
  {
    match io
    case CreateFails(e) => (disk, Some(e))
    case EncodeFails(e, left) => (left, Some(e))
    case Writes => (Holds(state), None)
  }

  /**
   * StateManager.Load for the state in memory, the file found, and what removing the file
   * and saving give: the state afterwards, the file afterwards, and the error.
   */
  function Loaded(state: State, disk: StateFile, removeError: Option<Error>, io: SaveIo): (r: (State, StateFile, Option<Error>))
    ensures disk.Holds? ==> r == (Overlay(state, disk.saved), disk, None)
    ensures disk.Missing? ==> r == (state, Saved(state, disk, io).0, Saved(state, disk, io).1)
  {
    match disk
    case Missing =>
      var (after, err) := Saved(state, disk, io);
      (state, after, err)
    case Holds(saved) =>
      (Overlay(state, saved), disk, None)
    case Corrupt(partial) =>
      Discarded(Overlay(state, partial), disk, removeError, io)
    case Unopenable(_) =>
      Discarded(state, disk, removeError, io)
  }

  /** After a failed decode: remove the file, and save the state when that worked. */
  function Discarded(state: State, disk: StateFile, removeError: Option<Error>, io: SaveIo): (r: (State, StateFile, Option<Error>))
    ensures r.0 == state
    ensures removeError.Some? ==> r.1 == disk && r.2 == removeError
    ensures removeError.None? ==> (r.1, r.2) == Saved(state, Missing, io)
  {
    if removeError.Some? then (state, disk, removeError)
    else
      var (after, err) := Saved(state, Missing, io);
      (state, after, err)
  }

  /**
   * A file that cannot be decoded is removed and the state in memory is saved; the fields
   * decoded before the failure stay in memory, and nothing resets the state to zero. When
   * removing fails, that error is returned and nothing is saved.
   */
  lemma LoadCorrupt(state: State, partial: State, removeError: Option<Error>, io: SaveIo)
    ensures var r := Loaded(state, Corrupt(partial), removeError, io);
            r.0 == Overlay(state, partial)
            && (removeError.Some? ==> r.1 == Corrupt(partial) && r.2 == removeError)
            && (removeError.None? ==> (r.1, r.2) == Saved(Overlay(state, partial), Missing, io))
  {
  }

  /** A file that cannot be opened is handled as one that cannot be decoded, and keeps the state. */
  lemma LoadUnopenable(state: State, e: Error, removeError: Option<Error>, io: SaveIo)
    ensures Loaded(state, Unopenable(e), removeError, io).0 == state
    ensures removeError.Some? ==> Loaded(state, Unopenable(e), removeError, io).2 == removeError
    ensures removeError.None? ==> Loaded(state, Unopenable(e), removeError, io).2 == Saved(state, Missing, io).1
  {
  }

  /**
   * Starting from the zero State, a Load that returns no error leaves memory and file in
   * agreement: the file holds exactly the state in memory.
   */
  lemma {:induction false} LoadFromZeroAgrees(disk: StateFile, removeError: Option<Error>, io: SaveIo)
    ensures var r := Loaded(ZeroState, disk, removeError, io);
            r.2.None? ==> r.1 == Holds(r.0)
  {
    match disk
    case Holds(saved) =>
      OverlayOnZero(saved);
    case Missing =>
    case Unopenable(_) =>
    case Corrupt(partial) =>
  }

  /** Unless a partial decode stored fields, a Load from the zero State that fails leaves the zero State. */
  lemma LoadFailureFromZero(disk: StateFile, removeError: Option<Error>, io: SaveIo)
    requires !disk.Corrupt?
    ensures Loaded(ZeroState, disk, removeError, io).2.Some? ==> Loaded(ZeroState, disk, removeError, io).0 == ZeroState
  {
  }

  class StateManager {
    var state: State
    const filename: string

    /** The manager as NewStateManager first builds it: the zero State and the file name. */
    constructor (filename: string)
      ensures state == ZeroState && this.filename == filename
    {
      state := ZeroState;
      this.filename := filename;
    }

    /** SetLastRequest: records `dt`; the counters stay. */
    method SetLastRequest(dt: Time)
      modifies this
      ensures state == State(dt, old(state).imageRedraws, old(state).imageRequests)
    {
      state := state.(lastRequest := dt);
    }

    /** IncrementImageRedraws: one more redraw (wrapping at the top of int64); the rest stays. */
    method IncrementImageRedraws()
      modifies this
      ensures state == State(old(state).lastRequest, WrappingIncrement(old(state).imageRedraws), old(state).imageRequests)
    {
      state := state.(imageRedraws := WrappingIncrement(state.imageRedraws));
    }

    /** IncrementImageRequests: one more request (wrapping at the top of int64); the rest stays. */
    method IncrementImageRequests()
      modifies this
      ensures state == State(old(state).lastRequest, old(state).imageRedraws, WrappingIncrement(old(state).imageRequests))
    {
      state := state.(imageRequests := WrappingIncrement(state.imageRequests));
    }

    /** Save (and save): write the state to the file; the state itself is not changed. */
    method Save(disk: StateFile, io: SaveIo) returns (after: StateFile, err: Option<Error>)
      ensures (after, err) == Saved(state, disk, io)
      ensures err.None? ==> after == Holds(state)
    {
      match io {
        case CreateFails(e) =>
          after, err := disk, Some(e);
        case EncodeFails(e, left) =>
          after, err := left, Some(e);
        case Writes =>
          after, err := Holds(state), None;
      }
    }

    /**
     * Load: a missing file is created from the state in memory; a file that cannot be
     * decoded is removed and then saved over; a decoded file is taken into memory.
     */
    method Load(disk: StateFile, removeError: Option<Error>, io: SaveIo) returns (after: StateFile, err: Option<Error>)
      modifies this
      ensures (state, after, err) == Loaded(old(state), disk, removeError, io)
    {
      if disk.Missing? {
        after, err := Save(disk, io);
        return;
      }
      match disk {
        case Holds(saved) =>
          state := Overlay(state, saved);
          return disk, None;
        case Corrupt(partial) =>
          state := Overlay(state, partial);
        case Unopenable(_) =>
      }
      if removeError.Some? {
        return disk, removeError;
      }
      after, err := Save(Missing, io);
    }
  }

  /**
   * NewStateManager: a manager with the zero State, then Load; the manager is returned with
   * Load's error.
   */
  method NewStateManager(filename: string, disk: StateFile, removeError: Option<Error>, io: SaveIo)
    returns (sm: StateManager, after: StateFile, err: Option<Error>)
    ensures fresh(sm) && sm.filename == filename
    ensures (sm.state, after, err) == Loaded(ZeroState, disk, removeError, io)
    ensures err.None? ==> after == Holds(sm.state)
  {
    sm := new StateManager(filename);
    after, err := sm.Load(disk, removeError, io);
    LoadFromZeroAgrees(disk, removeError, io);
  }
}
