/** The scene registry of src/game/content/levels.cpp: the level texts the game ships, and a
    map from scene id to the scene parsed from its text.  A `Scene*` is modelled by the scene
    value the parser produces (`Level.LevelScene`); `delete` has no counterpart beyond the
    entry leaving the map.  src/game/level.h only declares `createLevelFromText`, and its
    definition is not part of this model; the texts are parsed here with the DashGame parser
    of lithProjects/DashGame/src/level.cpp (`Level.ParseFrom`), on the assumption that the
    game's parser follows the same format. */
module Levels {
  import opened Wrappers
  import Level

  type Scene = Level.LevelScene

  /** `levelTestData`: the eight level texts, whose "L" records carry the ids 0 to 6 and 9, in
      that order. */
  const LevelTestData: seq<string> :=
    [
      "\n"
      + "\t\tL 0\n"
      + "\t\tp -4 -4\n"
      + "\t\td 1 3.5 3.5\n"
      + "\t\tt 0 .2 .6 Controls|Arrow_Keys|Space\n"
      + "\t\tw 0 5 10 0.5\n"
      + "\t\tw 0 -5 10 0.5\n"
      + "\t\tw -5 0 0.5 10.5\n"
      + "\t\tw 5 0 0.5 10.5\n"
      + "\t",
      "\n"
      + "\t\tL 1\n"
      + "\t\tp -3.5 0\n"
      + "\t\td 2 -3.5 -3.5\n"
      + "\t\te spinner 2 0 1 0.5 4 12\n"
      + "\t\tw -2 0 0.5 3\n"
      + "\t\tw 5 0 0.5 10.5\n"
      + "\t\tw 0 -5 10 0.5\n"
      + "\t\tw -5 0 0.5 10.5\n"
      + "\t\tw 0 5 10 0.5\n"
      + "\t\tw -3.5 1.5 3.5 0.5\n"
      + "\t",
      "\n"
      + "\t\tL 2\n"
      + "\t\tp -6 0\n"
      + "\t\td 3 6 0\n"
      + "\t\te spinner 0 -2.5 -1 0.5 4 12\n"
      + "\t\te spinner 0 2.5 1 0.5 4 12  \n"
      + "\t\tw 7.5 0 0.5 14.5\n"
      + "\t\tw 0 7 15 0.5\n"
      + "\t\tw -7.5 0 0.5 14.5\n"
      + "\t\tw 0 -7 15 0.5\n"
      + "\t",
      "\n"
      + "\t\tL 3\n"
      + "\t\tp -7 0\n"
      + "\t\td 4 6.5 -3.5\n"
      + "\t\tw -9 0 0.5 10.5\n"
      + "\t\tw 0 -5 18.5 0.5\n"
      + "\t\tw 0 -2.5 0.5 2.5\n"
      + "\t\tw 9 0 0.5 10.5\n"
      + "\t\tw 0 5 18.5 0.5\n"
      + "\t\te spinner 2.5 -2.5 1 0 4 12\n"
      + "\t\te spinner 2.5 2.5 -1 0 4 12\n"
      + "\t\te spinner 6.5 1.5 -1 0.5 4 12\n"
      + "\t\te spinner -2.5 -2.5 1 0.5 4 12\n"
      + "\t",
      "\n"
      + "\t\tL 4\n"
      + "\t\tp -4 4\n"
      + "\t\td 5 4 4\n"
      + "\t\tw 0 5 10 0.5\n"
      + "\t\tw 0 -5 10 0.5\n"
      + "\t\tw -5 0 0.5 10.5\n"
      + "\t\tw 5 0 0.5 10.5\n"
      + "\t\tw -2.5 -2.5 2 0.5\n"
      + "\t\te spinner 0 -2 -1 0.5 4 12\n"
      + "\t\te spinner 2 0 1 0.5 4 12\n"
      + "\t\te spinner -2 0 -1 0.5 4 12\n"
      + "\t\te spinner 0 2 1 0.5 4 12\n"
      + "\t",
      "\n"
      + "\t\tL 5\n"
      + "\t\tp -15.5 -2\n"
      + "\t\te burst 0 1 0 24 1.5 1\n"
      + "\t\te burst 0 -3.5 0 24 1.5 1\n"
      + "\t\te burst 12.5 3.5 0 24 1.5 1\n"
      + "\t\te burst -8 3.5 0 24 1.5 1\n"
      + "\t\te burst -3.5 -6.5 0 24 1.5 1\n"
      + "\t\te burst 10.5 -4.5 0 24 1.5 1\n"
      + "\t\te burst 11.5 -0.5 0 24 1.5 1\n"
      + "\t\te burst 0.5 4.5 0 24 1.5 1\n"
      + "\t\te burst -6 6 0 24 1.5 1\n"
      + "\t\te burst 10 3 0 24 1.5 1\n"
      + "\t",
      "\n"
      + "\t\tL 6\n"
      + "\t\tp -6.5 -3.5\n"
      + "\t\td 7 -6 2.5\n"
      + "\t\te spinner 5 2.5 -1 1 13.6528 26\n"
      + "\t\te spinner -3 2.5 1 1 10.3194 8\n"
      + "\t\te spinner -3 -3 1 0.5 4 12\n"
      + "\t\tw 0 -5 16 0.5\n"
      + "\t\tw 0 5 16 0.5\n"
      + "\t\tw -8 0 0.5 10.5\n"
      + "\t\tw 8 0 0.5 10.5\n"
      + "\t\tw -5 -3.5 0.5 3\n"
      + "\t\tw -4.5 0 6.5 0.5\n"
      + "\t\tw -1 2.5 0.5 2\n"
      + "\t",
      "\n"
      + "\t\tL 9\n"
      + "\t\tp -8 0\n"
      + "\t\td 0 8 0\n"
      + "\t\te spinner 0 0 1 0.5 9 24\n"
      + "\t\te spinner -4 0 1 0.5 9 12\n"
      + "\t\te spinner 4 0 1 0.5 9 12\n"
      + "\t\tw 0 5 20 0.5\n"
      + "\t\tw 0 -5 20.5 0.5\n"
      + "\t\tw 2 0 0.5 3\n"
      + "\t\tw -2 0 0.5 3\n"
      + "\t\tw 10 0 0.5 10.5\n"
      + "\t\tw -10 0 0.5 10.5\n"
      + "\t"
    ]

  /** Why a registry call fails: `unordered_map::at` throws on an id that is not in the map, the
      parser throws, or `levelTestData[id]` reads outside the vector (undefined behaviour). */
  datatype RegistryError = Missing(id: int) | Unparsable(reason: Level.LevelError) | PastData(position: int)

  /** `createLevelFromText`. */
  function Parsed(text: string): Result<Scene, Level.LevelError>
  {
    Level.ParseFrom(text, 0, Level.NewScene, false)
  }

  /** Whether `text` parses to a scene with id `id`. */
  predicate HasId(text: string, id: int)
  {
    Parsed(text).Ok? && Parsed(text).value.id == id
  }

  /** The registry after adding some texts in order to an empty map, and the parser's
      exception that stopped the adding, if any. */
  datatype Loading = Loading(scenes: map<int, Scene>, failure: Option<Level.LevelError>)

  /** `addAllScenes` over `texts`: `clearScenes`, then `addScene` on each text in order, a
      scene replacing any earlier one with the same id; the first text that does not parse
      throws out of the loop, leaving what was added so far. */
  function Load(texts: seq<string>): Loading
    decreases |texts|
  {
    if texts == [] then Loading(map[], None)
    else
      var before := Load(texts[..|texts| - 1]);
      if before.failure.Some? then before
      else match Parsed(texts[|texts| - 1])
        case Err(e) => Loading(before.scenes, Some(e))
        case Ok(sc) => Loading(before.scenes[sc.id := sc], None)
  }

  /** A load without failure parsed every text and registered each one's id; every registered
      scene is the parse of one of the texts, under that scene's own id. */
  lemma {:induction false} LoadKeys(texts: seq<string>)
    ensures Load(texts).failure.None? ==>
              forall k :: 0 <= k < |texts| ==> Parsed(texts[k]).Ok? && Parsed(texts[k]).value.id in Load(texts).scenes
    ensures forall id :: id in Load(texts).scenes ==>
              Load(texts).scenes[id].id == id && exists k :: 0 <= k < |texts| && Parsed(texts[k]) == Ok(Load(texts).scenes[id])
    decreases |texts|
  {
    if texts != [] {
      var n := |texts| - 1;
      LoadKeys(texts[..n]);
      assert forall k :: 0 <= k < n ==> texts[..n][k] == texts[k];
    }
  }

  /** A scene comes from the last text that carries its id: `addScene` replaces. */
  lemma {:induction false} LoadLatest(texts: seq<string>, k: int, id: int)
    requires Load(texts).failure.None? && 0 <= k < |texts| && HasId(texts[k], id)
    requires forall j :: k < j < |texts| ==> !HasId(texts[j], id)
    ensures id in Load(texts).scenes && Load(texts).scenes[id] == Parsed(texts[k]).value
    decreases |texts|
  {
    var n := |texts| - 1;
    assert Load(texts[..n]).failure.None?;
    if k < n {
      assert forall j :: k < j < n ==> texts[..n][j] == texts[j];
      LoadLatest(texts[..n], k, id);
    }
  }

  /** A load that failed stopped at the first text that does not parse, with the map the texts
      before it built. */
  lemma {:induction false} LoadStops(texts: seq<string>)
    requires Load(texts).failure.Some?
    ensures exists k :: 0 <= k < |texts| && Parsed(texts[k]) == Err(Load(texts).failure.value) &&
                        Load(texts[..k]).failure.None? && Load(texts[..k]).scenes == Load(texts).scenes
    decreases |texts|
  {
    var n := |texts| - 1;
    if Load(texts[..n]).failure.Some? {
      LoadStops(texts[..n]);
      var k :| 0 <= k < n && Parsed(texts[..n][k]) == Err(Load(texts[..n]).failure.value) &&
               Load(texts[..n][..k]).failure.None? && Load(texts[..n][..k]).scenes == Load(texts[..n]).scenes;
      assert texts[..n][..k] == texts[..k];
    }
  }

  /** `reloadScene(id)` as written: the scene for `id` is deleted and replaced by the parse of
      `levelTestData[id]`, the text at POSITION `id`. */
  function Reload(scenes: map<int, Scene>, texts: seq<string>, id: int): Result<Scene, RegistryError>
  {
    if id !in scenes then Err(Missing(id))
    else if !(0 <= id < |texts|) then Err(PastData(id))
    else match Parsed(texts[id])
      case Err(e) => Err(Unparsable(e))
      case Ok(sc) => Ok(sc)
  }

  /** The map after `reloadScene(id)`: a missing id throws before anything changes; once the
      old scene is deleted a failure leaves no scene under `id`. */
  function AfterReload(scenes: map<int, Scene>, texts: seq<string>, id: int): map<int, Scene>
  {
    match Reload(scenes, texts, id)
    case Ok(sc) => scenes[id := sc]
    case Err(Missing(_)) => scenes
    case Err(_) => scenes - {id}
  }

  /** The shipped data holds eight texts, so reloading the scene with id 9, which the last
      text defines, reads past the end of `levelTestData`. */
  lemma ReloadNinePastData(scenes: map<int, Scene>)
    requires 9 in scenes
    ensures Reload(scenes, LevelTestData, 9) == Err(PastData(9))
    ensures 9 !in AfterReload(scenes, LevelTestData, 9)
  {
    assert |LevelTestData| == 8;
  }

  /** With a text of id 1 at position 0 and one of id 0 at position 1, reloading scene 0 after
      loading both puts the scene with id 1 under key 0. */
  lemma ReloadWrongScene()
    ensures var texts := [Level.LevelText(1, [], false), Level.LevelText(0, [], false)];
            var loaded := Load(texts);
            loaded.failure.None? && loaded.scenes == map[1 := Level.LevelScene(1, 1, 0, []), 0 := Level.LevelScene(0, 0, 0, [])] &&
            Reload(loaded.scenes, texts, 0) == Ok(Level.LevelScene(1, 1, 0, [])) &&
            AfterReload(loaded.scenes, texts, 0)[0].id == 1
  {
    var texts := [Level.LevelText(1, [], false), Level.LevelText(0, [], false)];
    Level.RoundTrip(1, [], false, false);
    Level.RoundTrip(0, [], false, false);
    assert Level.Enemies([]) == 0 && Level.Kept([], false) == [];
    assert Parsed(texts[0]) == Ok(Level.LevelScene(1, 1, 0, []));
    assert Parsed(texts[1]) == Ok(Level.LevelScene(0, 0, 0, []));
    assert texts[..1][..0] == [];
    assert texts[..1] == [texts[0]];
    assert Load(texts[..1]) == Loading(map[1 := Level.LevelScene(1, 1, 0, [])], None);
  }

  /** The position of the last text that parses to a scene with id `id`. */
  function LastWithId(texts: seq<string>, id: int): (r: Option<nat>)
    ensures r.Some? ==> r.value < |texts| && HasId(texts[r.value], id) && forall j :: r.value < j < |texts| ==> !HasId(texts[j], id)
    ensures r.None? ==> forall j :: 0 <= j < |texts| ==> !HasId(texts[j], id)
    decreases |texts|
  {
    if texts == [] then None
    else if HasId(texts[|texts| - 1], id) then Some(|texts| - 1)
    else
      var r := LastWithId(texts[..|texts| - 1], id);
      assert forall j :: 0 <= j < |texts| - 1 ==> texts[..|texts| - 1][j] == texts[j];
      r
  }

  /** `reloadScene(id)` as evidently intended: reparse the text that defines the scene with id
      `id`, the last one as `addAllScenes` keeps the last. */
  function ReloadById(scenes: map<int, Scene>, texts: seq<string>, id: int): Result<Scene, RegistryError>
  {
    if id !in scenes then Err(Missing(id))
    else match LastWithId(texts, id)
      case None => Err(Missing(id))
      case Some(k) => Ok(Parsed(texts[k]).value)
  }

  /** Reloading by id any scene that `addAllScenes` registered gives back that very scene. */
  lemma ReloadByIdRestores(texts: seq<string>, id: int)
    requires Load(texts).failure.None? && id in Load(texts).scenes
    ensures ReloadById(Load(texts).scenes, texts, id) == Ok(Load(texts).scenes[id])
  {
    LoadKeys(texts);
    var k :| 0 <= k < |texts| && Parsed(texts[k]) == Ok(Load(texts).scenes[id]);
    assert HasId(texts[k], id);
    var last := LastWithId(texts, id);
    LoadLatest(texts, last.value, id);
  }

  /** The global `scenes` map. */
  class Registry {
    var scenes: map<int, Scene>

    constructor ()
      ensures scenes == map[]
    {
      scenes := map[];
    }

    /** `getScene`: `scenes.at(id)`. */
    method GetScene(id: int) returns (r: Result<Scene, RegistryError>)
      ensures id in scenes ==> r == Ok(scenes[id])
      ensures id !in scenes ==> r == Err(Missing(id))
    {
      if id in scenes {
        r := Ok(scenes[id]);
      } else {
        r := Err(Missing(id));
      }
    }

    /** `getAllScenes`. */
    method GetAllScenes() returns (all: map<int, Scene>)
      ensures all == scenes
    {
      all := scenes;
    }

    /** `addScene`: parse the text and store the scene under its own id, replacing (and
      deleting) any scene already there; a text that does not parse throws and changes
      nothing. */
    method AddScene(text: string) returns (failure: Option<Level.LevelError>)
      modifies this
      ensures Parsed(text).Ok? ==> failure.None? && scenes == old(scenes)[Parsed(text).value.id := Parsed(text).value]
      ensures Parsed(text).Err? ==> failure == Some(Parsed(text).error) && scenes == old(scenes)
    {
      var r := Level.CreateLevelFromText(text);
      if r.Err? {
        return Some(r.error);
      }
      scenes := scenes[r.value.id := r.value];
      failure := None;
    }

    /** `clearScenes`. */
    method ClearScenes()
      modifies this
      ensures scenes == map[]
    {
      scenes := map[];
    }

    /** `addAllScenes`. */
    method AddAllScenes() returns (failure: Option<Level.LevelError>)
      modifies this
      ensures scenes == Load(LevelTestData).scenes && failure == Load(LevelTestData).failure
    {
      ClearScenes();
      failure := AddEach(LevelTestData);
    }

    /** The loop of `addAllScenes`, from an empty map, over `texts`. */
    method AddEach(texts: seq<string>) returns (failure: Option<Level.LevelError>)
      requires scenes == map[]
      modifies this
      ensures scenes == Load(texts).scenes && failure == Load(texts).failure
    {
      var i := 0;
      failure := None;
      while i < |texts|
        invariant 0 <= i <= |texts|
        invariant Load(texts[..i]) == Loading(scenes, None) && failure.None?
        decreases |texts| - i
      {
        assert texts[..i + 1][..i] == texts[..i];
        failure := AddScene(texts[i]);
        if failure.Some? {
          assert texts[..i + 1][i] == texts[i];
          assert Load(texts[..i + 1]) == Loading(scenes, failure);
          LoadFailed(texts, i + 1);
          return;
        }
        i := i + 1;
      }
      assert texts[..i] == texts;
    }

    /** `reloadScene`. */
    method ReloadScene(id: int) returns (r: Result<Scene, RegistryError>)
      modifies this
      ensures r == Reload(old(scenes), LevelTestData, id)
      ensures scenes == AfterReload(old(scenes), LevelTestData, id)
    {
      if id !in scenes {
        return Err(Missing(id));
      }
      scenes := scenes - {id};
      if !(0 <= id < |LevelTestData|) {
        return Err(PastData(id));
      }
      var parsed := Level.CreateLevelFromText(LevelTestData[id]);
      if parsed.Err? {
        return Err(Unparsable(parsed.error));
      }
      scenes := scenes[id := parsed.value];
      r := Ok(parsed.value);
    }
  }

  /** Once a text fails, the texts after it are not looked at. */
  lemma {:induction false} LoadFailed(texts: seq<string>, k: int)
    requires 0 < k <= |texts| && Load(texts[..k]).failure.Some?
    ensures Load(texts) == Load(texts[..k])
    decreases |texts|
  {
    if k < |texts| {
      var n := |texts| - 1;
      assert texts[..n][..k] == texts[..k];
      LoadFailed(texts[..n], k);
    } else {
      assert texts[..k] == texts;
    }
  }
}
