/** The DashGame level text format of lithProjects/DashGame/src/level.cpp: a line-oriented
    text of one-letter records ("L id", "d id x y", "p x y", "w x y sx sy", "t x y size text",
    "e spinner x y dir offset rps shots", "e burst x y offset shots time cooldown"), the
    token readers that walk it with an index, the parser that turns it into a scene, and the
    serializer that writes a scene back.

    Float fields are kept as the text they are written as (a `Token`); integer fields go
    through a model of `std::stoi`.  A scene is reduced to what the format touches: its id,
    its requested id, its enemy count and the entities it queued, in order. */
module Level {
  import opened Wrappers

  /** A float field, identified with its printed form. */
  type Token = string

  datatype Vec2 = Vec2(x: Token, y: Token)

  /** The entity kinds the format knows; `Other` stands for any entity it does not describe
      (the serializer skips those). */
  datatype Entity =
    | Door(pos: Vec2, id: int)
    | Player(pos: Vec2)
    | Wall(pos: Vec2, size: Vec2)
    | Text(pos: Vec2, textSize: Token, text: string)
    | Spinner(pos: Vec2, direction: Token, angleOffset: Token, rotationsPerSecond: Token, shotsPerRotation: int)
    | Burst(pos: Vec2, angleOffset: Token, numberOfShots: int, burstTime: Token, burstCooldown: Token)
    | Other

  /** The part of a `Scene` the level format reads and writes: `queued` is the scene's
      pending additions, in the order `Scene::add` received them. */
  datatype LevelScene = LevelScene(id: int, requestId: int, enemyCount: int, queued: seq<Entity>)

  /** A freshly constructed scene. */
  const NewScene := LevelScene(0, 0, 0, [])

  /** Why parsing stops: `std::stoi` threw on a token, an enemy type was neither "spinner" nor
      "burst" (the `throw`), or a record left the index before the position it started at,
      so that the loop would go back over text it has already parsed. */
  datatype LevelError = BadInt(token: string) | InvalidEnemy(kind: string) | Rewinds(at: nat)

  /** What a reader returns together with the new value of `*index`. */
  datatype Read<T> = Read(value: T, next: int)

  predicate IsSep(c: char) { c == ' ' || c == '\n' }

  /** A token holds no separator. */
  predicate Clean(t: string) { forall k :: 0 <= k < |t| ==> !IsSep(t[k]) }

  /** `find_first_of(' ', from)`; a negative `from` converts to a huge unsigned position, for
      which nothing is found. */
  function FindSpace(s: string, from: int): (r: Option<nat>)
    ensures r.Some? ==> 0 <= from <= r.value < |s|
    decreases |s| - from
  {
    if from < 0 || from >= |s| then None
    else if s[from] == ' ' then Some(from)
    else FindSpace(s, from + 1)
  }

  /** `find_first_of(" \n", from)`. */
  function FindSep(s: string, from: nat): (r: Option<nat>)
    ensures r.Some? ==> from <= r.value < |s|
    decreases |s| - from
  {
    if from >= |s| then None
    else if IsSep(s[from]) then Some(from)
    else FindSep(s, from + 1)
  }

  /** `FindSpace` finds the first space at or after `from`, and nothing when there is none. */
  lemma {:induction false} FindSpaceFirst(s: string, from: int)
    ensures var r := FindSpace(s, from);
            (r.Some? ==> s[r.value] == ' ' && forall k :: from <= k < r.value ==> s[k] != ' ') &&
            (r.None? ==> forall k :: 0 <= from <= k < |s| ==> s[k] != ' ')
    decreases |s| - from
  {
    if 0 <= from < |s| && s[from] != ' ' {
      FindSpaceFirst(s, from + 1);
    }
  }

  /** `FindSep` finds the first separator at or after `from`, and nothing when there is none. */
  lemma {:induction false} FindSepFirst(s: string, from: nat)
    ensures var r := FindSep(s, from);
            (r.Some? ==> IsSep(s[r.value]) && forall k :: from <= k < r.value ==> !IsSep(s[k])) &&
            (r.None? ==> forall k :: from <= k < |s| ==> !IsSep(s[k]))
    decreases |s| - from
  {
    if from < |s| && !IsSep(s[from]) {
      FindSepFirst(s, from + 1);
    }
  }

  /** The reader shared by `readString`, `readFloat` and `readInt`: the token that starts
      after the first space at or after `index` and ends before the next space or newline;
      `next` is the new `*index`, the position of that separator.  With no space left,
      `npos + 1` wraps to 0 and the token is taken from the start of the text; with no
      separator after it, the token runs to the end and `*index` becomes `npos` read as an
      `int`, -1. */
  function ReadToken(s: string, index: int): (r: Read<string>)
    ensures -1 <= r.next < |s|
  {
    var b := if FindSpace(s, index).Some? then FindSpace(s, index).value + 1 else 0;
    var e := FindSep(s, b);
    if e.Some? then Read(s[b..e.value], e.value) else Read(s[b..], -1)
  }

  /** A token holds no separator; when a separator was found, `*index` points at it and the
      token is the text just before it; otherwise the token is the end of the text. */
  lemma ReadTokenShape(s: string, index: int)
    ensures var r := ReadToken(s, index);
            Clean(r.value) &&
            (r.next >= 0 ==> IsSep(s[r.next]) && |r.value| <= r.next && s[r.next - |r.value|..r.next] == r.value) &&
            (r.next == -1 ==> |r.value| <= |s| && r.value == s[|s| - |r.value|..])
  {
    var b := if FindSpace(s, index).Some? then FindSpace(s, index).value + 1 else 0;
    FindSepFirst(s, b);
  }

  /** The 32-bit range of a C++ `int`. */
  predicate Int32(n: int) { -0x8000_0000 <= n < 0x8000_0000 }

  predicate IsDigit(c: char) { '0' <= c <= '9' }

  /** The characters `isspace` accepts, which `std::stoi` skips in front of a number. */
  predicate IsBlank(c: char) { c == ' ' || c == '\n' || c == '\t' || c == '\r' || c as int == 11 || c as int == 12 }

  function SkipBlank(t: string): (u: string)
    ensures |u| <= |t|
  {
    if t != [] && IsBlank(t[0]) then SkipBlank(t[1..]) else t
  }

  /** The number of digits at the front of `t`. */
  function DigitRun(t: string): (n: nat)
    ensures n <= |t|
  {
    if t != [] && IsDigit(t[0]) then 1 + DigitRun(t[1..]) else 0
  }

  /** The value of a run of decimal digits. */
  function DigitsValue(ds: string): int
  {
    if ds == [] then 0 else 10 * DigitsValue(ds[..|ds| - 1]) + (ds[|ds| - 1] as int - '0' as int)
  }

  /** `std::stoi`: optional blanks, an optional sign, then at least one digit (anything after
      the digits is ignored); `None` where it throws, for no digits or a value outside `int`. */
  function Stoi(t: string): (r: Option<int>)
    ensures r.Some? ==> Int32(r.value)
  {
    var u := SkipBlank(t);
    var d := if u != [] && (u[0] == '-' || u[0] == '+') then u[1..] else u;
    var n := DigitRun(d);
    if n == 0 then None
    else
      var v := if u != [] && u[0] == '-' then -DigitsValue(d[..n]) else DigitsValue(d[..n]);
      if Int32(v) then Some(v) else None
  }

  /** `readInt`: the next token through `std::stoi`. */
  function ReadInt(s: string, index: int): (r: Result<Read<int>, LevelError>)
    ensures r.Ok? ==> Int32(r.value.value) && r.value.next == ReadToken(s, index).next
    ensures r.Err? <==> Stoi(ReadToken(s, index).value).None?
  {
    var t := ReadToken(s, index);
    if Stoi(t.value).Some? then Ok(Read(Stoi(t.value).value, t.next)) else Err(BadInt(t.value))
  }

  /** `readVec2`: two float tokens in a row. */
  function ReadVec2(s: string, index: int): (r: Read<Vec2>)
    ensures -1 <= r.next < |s|
  {
    var x := ReadToken(s, index);
    var y := ReadToken(s, x.next);
    Read(Vec2(x.value, y.value), y.next)
  }

  /** `std::replace(begin, end, from, to)`. */
  function Replace(s: string, from: char, to: char): (r: string)
    ensures |r| == |s|
  {
    if s == [] then [] else [if s[0] == from then to else s[0]] + Replace(s[1..], from, to)
  }

  /** Every `from` becomes `to`, and nothing else changes. */
  lemma {:induction false} ReplaceAt(s: string, from: char, to: char, k: nat)
    requires k < |s|
    ensures Replace(s, from, to)[k] == if s[k] == from then to else s[k]
    decreases k
  {
    if k > 0 {
      ReplaceAt(s[1..], from, to, k - 1);
    }
  }

  /** Replacing a character the string does not hold changes nothing. */
  lemma {:induction false} ReplaceAbsent(s: string, from: char, to: char)
    requires forall k :: 0 <= k < |s| ==> s[k] != from
    ensures Replace(s, from, to) == s
    decreases |s|
  {
    if s != [] {
      ReplaceAbsent(s[1..], from, to);
      assert [s[0]] + s[1..] == s;
    }
  }

  /** A 't' string as the parser stores it. */
  function Unescape(s: string): (r: string)
    ensures |r| == |s|
  {
    Replace(Replace(s, '|', '\n'), '_', ' ')
  }

  /** Unescaping turns every '|' into a newline and every '_' into a space, and changes
      nothing else. */
  lemma UnescapeAt(s: string, k: nat)
    requires k < |s|
    ensures Unescape(s)[k] == if s[k] == '|' then '\n' else if s[k] == '_' then ' ' else s[k]
  {
    ReplaceAt(s, '|', '\n', k);
    ReplaceAt(Replace(s, '|', '\n'), '_', ' ', k);
  }

  /** A string holding neither escape character. */
  predicate NoMarkers(s: string) { forall k :: 0 <= k < |s| ==> s[k] != '|' && s[k] != '_' }

  /** What the parser stores never holds an escape character. */
  lemma UnescapeHasNoMarkers(s: string)
    ensures NoMarkers(Unescape(s))
  {
    forall k | 0 <= k < |s|
      ensures Unescape(s)[k] != '|' && Unescape(s)[k] != '_'
    {
      UnescapeAt(s, k);
    }
  }

  function Queue(sc: LevelScene, e: Entity): LevelScene { sc.(queued := sc.queued + [e]) }

  function CountEnemy(sc: LevelScene): LevelScene { sc.(enemyCount := sc.enemyCount + 1) }

  /** The body of the parser's `switch` for the character at `i`: the scene after the record
      that starts there and the index the loop then increments.  A character that starts no
      record leaves both alone.  `keepBursts` is false for the parser as written, which reads
      a burst enemy's fields and counts it but never queues it; true gives the parser that
      queues it. */
  function Record(s: string, i: nat, sc: LevelScene, keepBursts: bool): (r: Result<Read<LevelScene>, LevelError>)
    requires i < |s|
  {
    if s[i] == 'L' then IdRecord(s, i, sc)
    else if s[i] == 'd' then DoorRecord(s, i, sc)
    else if s[i] == 'p' then PlayerRecord(s, i, sc)
    else if s[i] == 'w' then WallRecord(s, i, sc)
    else if s[i] == 't' then TextRecord(s, i, sc)
    else if s[i] == 'e' then EnemyRecord(s, i, sc, keepBursts)
    else Ok(Read(sc, i))
  }

  /** The 'L' case: the level id, which also becomes the requested id. */
  function IdRecord(s: string, i: nat, sc: LevelScene): (r: Result<Read<LevelScene>, LevelError>)
  {
    match ReadInt(s, i)
    case Err(e) => Err(e)
    case Ok(id) => Ok(Read(sc.(id := id.value, requestId := id.value), id.next))
  }

  /** The 'd' case: the id of the level the door leads to, then its position. */
  function DoorRecord(s: string, i: nat, sc: LevelScene): (r: Result<Read<LevelScene>, LevelError>)
  {
    match ReadInt(s, i)
    case Err(e) => Err(e)
    case Ok(id) =>
      var pos := ReadVec2(s, id.next);
      Ok(Read(Queue(sc, Door(pos.value, id.value)), pos.next))
  }

  /** The 'p' case: the player's position. */
  function PlayerRecord(s: string, i: nat, sc: LevelScene): (r: Result<Read<LevelScene>, LevelError>)
  {
    var pos := ReadVec2(s, i);
    Ok(Read(Queue(sc, Player(pos.value)), pos.next))
  }

  /** The 'w' case: the wall's position, then its size. */
  function WallRecord(s: string, i: nat, sc: LevelScene): (r: Result<Read<LevelScene>, LevelError>)
  {
    var pos := ReadVec2(s, i);
    var size := ReadVec2(s, pos.next);
    Ok(Read(Queue(sc, Wall(pos.value, size.value)), size.next))
  }

  /** The 't' case: position, size, then one token of text, unescaped. */
  function TextRecord(s: string, i: nat, sc: LevelScene): (r: Result<Read<LevelScene>, LevelError>)
  {
    var pos := ReadVec2(s, i);
    var size := ReadToken(s, pos.next);
    var str := ReadToken(s, size.next);
    Ok(Read(Queue(sc, Text(pos.value, size.value, Unescape(str.value))), str.next))
  }

  /** The 'e' case: the enemy type and position, then the fields of that type. */
  function EnemyRecord(s: string, i: nat, sc: LevelScene, keepBursts: bool): (r: Result<Read<LevelScene>, LevelError>)
  {
    var kind := ReadToken(s, i);
    var pos := ReadVec2(s, kind.next);
    if kind.value == "spinner" then
      var dir := ReadToken(s, pos.next);
      var offset := ReadToken(s, dir.next);
      var rps := ReadToken(s, offset.next);
      match ReadInt(s, rps.next)
      case Err(e) => Err(e)
      case Ok(shots) =>
        var enemy := Spinner(pos.value, dir.value, offset.value, rps.value, shots.value);
        Ok(Read(CountEnemy(Queue(sc, enemy)), shots.next))
    else if kind.value == "burst" then
      var offset := ReadToken(s, pos.next);
      match ReadInt(s, offset.next)
      case Err(e) => Err(e)
      case Ok(shots) =>
        var time := ReadToken(s, shots.next);
        var cooldown := ReadToken(s, time.next);
        var enemy := Burst(pos.value, offset.value, shots.value, time.value, cooldown.value);
        Ok(Read(CountEnemy(if keepBursts then Queue(sc, enemy) else sc), cooldown.next))
    else
      Err(InvalidEnemy(kind.value))
  }

  /** The parser's loop from position `i` on, with the scene built so far. */
  function ParseFrom(s: string, i: nat, sc: LevelScene, keepBursts: bool): (r: Result<LevelScene, LevelError>)
    decreases |s| - i, 1
  {
    if i >= |s| then Ok(sc) else Continue(s, i, sc, keepBursts)
  }

  /** One turn of the loop at `i < |s|` and the turns after it: the record at `i` is read,
      then the loop increments the index the record left, unless that goes back. */
  function Continue(s: string, i: nat, sc: LevelScene, keepBursts: bool): (r: Result<LevelScene, LevelError>)
    requires i < |s|
    decreases |s| - i, 0
  {
    match Record(s, i, sc, keepBursts)
    case Err(e) => Err(e)
    case Ok(st) => if st.next < i then Err(Rewinds(i)) else ParseFrom(s, st.next + 1, st.value, keepBursts)
  }

  /** `createLevelFromText`: the loop over the text, one switch per position. */
  method CreateLevelFromText(text: string) returns (r: Result<LevelScene, LevelError>)
    ensures r == ParseFrom(text, 0, NewScene, false)
  {
    var sc := NewScene;
    var i := 0;
    while i < |text|
      invariant 0 <= i
      invariant ParseFrom(text, i, sc, false) == ParseFrom(text, 0, NewScene, false)
      decreases |text| - i
    {
      var step := Record(text, i, sc, false);
      ParseStep(text, i, sc, false, step);
      if step.Err? || step.value.next < i {
        return if step.Err? then Err(step.error) else Err(Rewinds(i));
      }
      sc, i := step.value.value, step.value.next + 1;
    }
    r := Ok(sc);
  }

  /** One turn of the parser's loop. */
  lemma ParseStep(s: string, i: nat, sc: LevelScene, keepBursts: bool, step: Result<Read<LevelScene>, LevelError>)
    requires i < |s| && step == Record(s, i, sc, keepBursts)
    ensures step.Err? ==> ParseFrom(s, i, sc, keepBursts) == Err(step.error)
    ensures step.Ok? && step.value.next < i ==> ParseFrom(s, i, sc, keepBursts) == Err(Rewinds(i))
    ensures step.Ok? && step.value.next >= i ==>
              ParseFrom(s, i, sc, keepBursts) == ParseFrom(s, step.value.next + 1, step.value.value, keepBursts)
  {
  }

  // ---------------------------------------------------------------------------------------
  // What each record does to the scene.

  /** An "L id" record sets both the id and the requested id to `id`, and queues nothing. */
  lemma LevelRecordSetsIds(s: string, i: nat, sc: LevelScene, keepBursts: bool)
    requires i < |s| && s[i] == 'L'
    ensures var t := ReadToken(s, i);
            match Record(s, i, sc, keepBursts)
            case Err(e) => e == BadInt(t.value) && Stoi(t.value).None?
            case Ok(step) =>
              Stoi(t.value).Some? && step.value == LevelScene(Stoi(t.value).value, Stoi(t.value).value, sc.enemyCount, sc.queued)
  {
  }

  /** A 'd', 'p', 'w' or 't' record that parses queues exactly one entity of its kind and
      leaves the ids and the enemy count alone. */
  lemma RecordQueuesOne(s: string, i: nat, sc: LevelScene, keepBursts: bool)
    requires i < |s| && s[i] in {'d', 'p', 'w', 't'}
    requires Record(s, i, sc, keepBursts).Ok?
    ensures var after := Record(s, i, sc, keepBursts).value.value;
            after.id == sc.id && after.requestId == sc.requestId && after.enemyCount == sc.enemyCount &&
            |after.queued| == |sc.queued| + 1 && after.queued[..|sc.queued|] == sc.queued &&
            var e := after.queued[|sc.queued|];
            (s[i] == 'd' <==> e.Door?) && (s[i] == 'p' <==> e.Player?) &&
            (s[i] == 'w' <==> e.Wall?) && (s[i] == 't' <==> e.Text?)
  {
  }

  /** An 'e' record fails as an invalid enemy exactly when its type is neither "spinner" nor
      "burst". */
  lemma InvalidEnemyType(s: string, i: nat, sc: LevelScene, keepBursts: bool)
    ensures var kind := ReadToken(s, i).value;
            var r := EnemyRecord(s, i, sc, keepBursts);
            r.Err? && r.error.InvalidEnemy? <==> kind != "spinner" && kind != "burst"
  {
  }

  /** A spinner record that parses queues one spinner and counts one enemy. */
  lemma SpinnerRecordQueues(s: string, i: nat, sc: LevelScene, keepBursts: bool)
    requires ReadToken(s, i).value == "spinner" && EnemyRecord(s, i, sc, keepBursts).Ok?
    ensures var after := EnemyRecord(s, i, sc, keepBursts).value.value;
            after.id == sc.id && after.requestId == sc.requestId && after.enemyCount == sc.enemyCount + 1 &&
            |after.queued| == |sc.queued| + 1 && after.queued[..|sc.queued|] == sc.queued &&
            after.queued[|sc.queued|].Spinner?
  {
  }

  /** A burst record that parses counts one enemy; as written it queues nothing. */
  lemma BurstRecordCounts(s: string, i: nat, sc: LevelScene, keepBursts: bool)
    requires ReadToken(s, i).value == "burst" && EnemyRecord(s, i, sc, keepBursts).Ok?
    ensures var after := EnemyRecord(s, i, sc, keepBursts).value.value;
            after.id == sc.id && after.requestId == sc.requestId && after.enemyCount == sc.enemyCount + 1 &&
            (!keepBursts ==> after.queued == sc.queued) &&
            (keepBursts ==> |after.queued| == |sc.queued| + 1 && after.queued[|sc.queued|].Burst?)
  {
  }

  // ---------------------------------------------------------------------------------------
  // The serializer.

  function DigitChar(d: nat): char
    requires d < 10
  {
    ('0' as int + d) as char
  }

  /** The decimal digits of `n`, as `operator<<` writes them. */
  function DigitsOf(n: nat): (ds: string)
    ensures |ds| >= 1 && forall k :: 0 <= k < |ds| ==> IsDigit(ds[k])
  {
    if n < 10 then [DigitChar(n)] else DigitsOf(n / 10) + [DigitChar(n % 10)]
  }

  /** An `int` as `operator<<` writes it. */
  function IntText(n: int): (t: string)
    ensures Clean(t) && t != []
  {
    if n < 0 then "-" + DigitsOf(-n) else DigitsOf(n)
  }

  /** The fields of a record line, each after one space. */
  function Fields(ts: seq<string>): string
  {
    if ts == [] then "" else Fields(ts[..|ts| - 1]) + " " + ts[|ts| - 1]
  }

  /** A record line: its letter, its fields, a newline. */
  function Line(tag: char, ts: seq<string>): string
  {
    [tag] + Fields(ts) + "\n"
  }

  /** The escaping the parser undoes: newlines written as '|', spaces as '_'. */
  function Escape(s: string): (r: string)
    ensures |r| == |s|
  {
    Replace(Replace(s, '\n', '|'), ' ', '_')
  }

  lemma EscapeAt(s: string, k: nat)
    requires k < |s|
    ensures Escape(s)[k] == if s[k] == '\n' then '|' else if s[k] == ' ' then '_' else s[k]
  {
    ReplaceAt(s, '\n', '|', k);
    ReplaceAt(Replace(s, '\n', '|'), ' ', '_', k);
  }

  /** Escaping leaves no separator in a string, and the parser's unescaping restores it
      whenever it held no escape character of its own. */
  lemma EscapeRoundTrip(s: string)
    requires NoMarkers(s)
    ensures Clean(Escape(s)) && Unescape(Escape(s)) == s
  {
    forall k | 0 <= k < |s|
      ensures !IsSep(Escape(s)[k]) && Unescape(Escape(s))[k] == s[k]
    {
      EscapeAt(s, k);
      UnescapeAt(Escape(s), k);
    }
  }

  /** The letter that starts the line of an entity the serializer writes. */
  function Tag(e: Entity): char
  {
    match e
    case Door(_, _) => 'd'
    case Player(_) => 'p'
    case Wall(_, _) => 'w'
    case Text(_, _, _) => 't'
    case _ => 'e'
  }

  /** The fields of that line; `escapeText` false is the serializer as written, which writes
      a text entity's string as it is. */
  function Tokens(e: Entity, escapeText: bool): seq<string>
  {
    match e
    case Door(pos, id) => [IntText(id), pos.x, pos.y]
    case Player(pos) => [pos.x, pos.y]
    case Wall(pos, size) => [pos.x, pos.y, size.x, size.y]
    case Text(pos, size, text) => [pos.x, pos.y, size, if escapeText then Escape(text) else text]
    case Spinner(pos, dir, offset, rps, shots) => ["spinner", pos.x, pos.y, dir, offset, rps, IntText(shots)]
    case Burst(pos, offset, shots, time, cooldown) => ["burst", pos.x, pos.y, offset, IntText(shots), time, cooldown]
    case Other => []
  }

  /** The line the serializer writes for one entity: none for an entity of another kind. */
  function EntityLine(e: Entity, escapeText: bool): string
  {
    if e.Other? then "" else Line(Tag(e), Tokens(e, escapeText))
  }

  /** The entity lines, in order. */
  function Body(es: seq<Entity>, escapeText: bool): string
  {
    if es == [] then "" else Body(es[..|es| - 1], escapeText) + EntityLine(es[|es| - 1], escapeText)
  }

  /** The whole text for a scene: the "L id" line, then one line per entity. */
  function LevelText(id: int, es: seq<Entity>, escapeText: bool): string
  {
    Line('L', [IntText(id)]) + Body(es, escapeText)
  }

  /** `createTextFromLevel`: the header, then the entities appended one by one. */
  method CreateTextFromLevel(id: int, entities: seq<Entity>) returns (text: string)
    ensures text == LevelText(id, entities, false)
  {
    text := "L " + IntText(id) + "\n";
    var body := "";
    for i := 0 to |entities|
      invariant body == Body(entities[..i], false)
    {
      var line := EntityLine(entities[i], false);
      BodySnoc(entities, i, false);
      body := body + line;
    }
    assert entities[..|entities|] == entities;
    HeaderLine(id);
    text := text + body;
  }

  lemma BodySnoc(es: seq<Entity>, i: nat, escapeText: bool)
    requires i < |es|
    ensures Body(es[..i + 1], escapeText) == Body(es[..i], escapeText) + EntityLine(es[i], escapeText)
  {
    assert es[..i + 1][..i] == es[..i];
  }

  lemma HeaderLine(id: int)
    ensures Line('L', [IntText(id)]) == "L " + IntText(id) + "\n"
  {
    var t := IntText(id);
    assert [t][..0] == [];
    assert Fields([t]) == " " + t;
    assert ['L'] + (" " + t) + "\n" == "L " + t + "\n";
  }

  // ---------------------------------------------------------------------------------------
  // Reading back what the serializer wrote.

  /** Integers read back: `std::stoi` of what `operator<<` writes for an `int` is that `int`. */
  lemma StoiIntText(n: int)
    requires Int32(n)
    ensures Stoi(IntText(n)) == Some(n)
  {
    var m := if n < 0 then -n else n;
    var ds := DigitsOf(m);
    var t := IntText(n);
    DigitsValueOf(m);
    DigitRunAll(ds);
    assert ds[..|ds|] == ds;
    assert !IsBlank(t[0]);
    assert SkipBlank(t) == t;
    if n < 0 {
      assert t[0] == '-' && t[1..] == ds;
    } else {
      assert t == ds && t[0] != '-' && t[0] != '+';
    }
  }

  lemma {:induction false} DigitsValueOf(n: nat)
    ensures DigitsValue(DigitsOf(n)) == n
  {
    if n >= 10 {
      DigitsValueOf(n / 10);
      var ds := DigitsOf(n);
      assert ds[..|ds| - 1] == DigitsOf(n / 10);
    }
  }

  lemma {:induction false} DigitRunAll(t: string)
    requires forall k :: 0 <= k < |t| ==> IsDigit(t[k])
    ensures DigitRun(t) == |t|
  {
    if t != [] {
      DigitRunAll(t[1..]);
    }
  }

  lemma {:induction false} FieldsAppend(a: seq<string>, b: seq<string>)
    ensures Fields(a + b) == Fields(a) + Fields(b)
    decreases |b|
  {
    if b == [] {
      assert a + b == a;
    } else {
      var n := |b| - 1;
      assert (a + b)[..|a + b| - 1] == a + b[..n];
      FieldsAppend(a, b[..n]);
    }
  }

  /** Fields begin with a space. */
  lemma FieldsHead(ts: seq<string>)
    requires ts != []
    ensures Fields(ts) != [] && Fields(ts)[0] == ' '
  {
    FieldsAppend([ts[0]], ts[1..]);
    assert [ts[0]] + ts[1..] == ts;
    assert [ts[0]][..0] == [];
  }

  /** A reader called at `index` when the first space from there is at `sp` and `tok`
      follows it up to a separator returns `tok` and leaves `*index` at that separator. */
  lemma ReadAt(s: string, index: int, sp: nat, tok: string)
    requires 0 <= index <= sp < |s| && s[sp] == ' '
    requires forall k :: index <= k < sp ==> s[k] != ' '
    requires Clean(tok) && sp + 1 + |tok| < |s| && s[sp + 1..sp + 1 + |tok|] == tok
    requires IsSep(s[sp + 1 + |tok|])
    ensures ReadToken(s, index) == Read(tok, sp + 1 + |tok|)
  {
    FindSpaceFirst(s, index);
    FindSepFirst(s, sp + 1);
    var e := sp + 1 + |tok|;
    forall k | sp + 1 <= k < e
      ensures !IsSep(s[k])
    {
      assert s[k] == tok[k - sp - 1];
    }
  }

  /** Where the `j`-th field of a record line sits: after a space at `1 + |Fields(ts[..j])|`,
      and followed by a separator. */
  lemma LineShape(c: char, ts: seq<string>, j: nat)
    requires j < |ts|
    ensures var line := Line(c, ts);
            var a := |Fields(ts[..j])|;
            var t := ts[j];
            |Fields(ts[..j + 1])| == a + 1 + |t| && a + 2 + |t| < |line| &&
            line[0] == c && line[1 + a] == ' ' && line[a + 2..a + 2 + |t|] == t && IsSep(line[a + 2 + |t|])
  {
    var line := Line(c, ts);
    var a := Fields(ts[..j]);
    var t := ts[j];
    var rest := Fields(ts[j + 1..]);
    FieldsAppend(ts[..j + 1], ts[j + 1..]);
    assert ts[..j + 1] + ts[j + 1..] == ts;
    assert ts[..j + 1][..j] == ts[..j];
    assert line == [c] + a + " " + t + rest + "\n";
    if rest != [] {
      FieldsHead(ts[j + 1..]);
    }
  }

  /** Reading the fields of a record line at `p`, one reader call after another: the `j`-th
      call returns the `j`-th field and leaves `*index` at the separator after it. */
  lemma LineField(s: string, p: nat, c: char, ts: seq<string>, j: nat)
    requires c != ' ' && forall k :: 0 <= k < |ts| ==> Clean(ts[k])
    requires LineAt(s, p, Line(c, ts))
    requires j < |ts|
    ensures ReadToken(s, if j == 0 then p else p + 1 + |Fields(ts[..j])|) == Read(ts[j], p + 1 + |Fields(ts[..j + 1])|)
  {
    var line := Line(c, ts);
    LineShape(c, ts, j);
    var a := |Fields(ts[..j])|;
    var t := ts[j];
    var sp := p + 1 + a;
    var e := sp + 1 + |t|;
    LineAtIndex(s, p, line, 1 + a);
    LineAtIndex(s, p, line, a + 2 + |t|);
    LineAtSlice(s, p, line, a + 2, a + 2 + |t|);
    if j == 0 {
      LineAtIndex(s, p, line, 0);
    }
    ReadAt(s, if j == 0 then p else sp, sp, t);
  }

  /** `line` sits in `s` at `p`, stated character by character. */
  predicate LineAt(s: string, p: nat, line: string)
    decreases |line|
  {
    p + |line| <= |s| && (line == [] || (s[p] == line[0] && LineAt(s, p + 1, line[1..])))
  }

  lemma {:induction false} LineAtIndex(s: string, p: nat, line: string, k: nat)
    requires LineAt(s, p, line) && k < |line|
    ensures s[p + k] == line[k]
    decreases k
  {
    if k > 0 {
      LineAtIndex(s, p + 1, line[1..], k - 1);
    }
  }

  lemma LineAtSlice(s: string, p: nat, line: string, i: nat, j: nat)
    requires LineAt(s, p, line) && i <= j <= |line|
    ensures p + j <= |s| && s[p + i..p + j] == line[i..j]
  {
    forall k | i <= k < j
      ensures s[p + k] == line[k]
    {
      LineAtIndex(s, p, line, k);
    }
  }

  /** A line written between two others sits right after the first. */
  lemma {:induction false} LineAtOf(a: string, line: string, b: string)
    ensures LineAt(a + line + b, |a|, line)
    decreases |line|
  {
    if line != [] {
      LineAtOf(a + [line[0]], line[1..], b);
      assert a + [line[0]] + line[1..] + b == a + line + b;
    }
  }

  predicate CleanVec(v: Vec2) { Clean(v.x) && Clean(v.y) }

  /** An entity the serializer can write so that the parser reads it back: float tokens
      without separators, integers in range, and a text string without escape characters;
      without escaping, the text string must also hold no separator. */
  predicate WellFormed(e: Entity, escapeText: bool)
  {
    match e
    case Door(pos, id) => CleanVec(pos) && Int32(id)
    case Player(pos) => CleanVec(pos)
    case Wall(pos, size) => CleanVec(pos) && CleanVec(size)
    case Text(pos, size, text) => CleanVec(pos) && Clean(size) && NoMarkers(text) && (escapeText || Clean(text))
    case Spinner(pos, dir, offset, rps, shots) => CleanVec(pos) && Clean(dir) && Clean(offset) && Clean(rps) && Int32(shots)
    case Burst(pos, offset, shots, time, cooldown) => CleanVec(pos) && Clean(offset) && Int32(shots) && Clean(time) && Clean(cooldown)
    case Other => true
  }

  /** What reading an entity's record does to the scene. */
  function Apply(sc: LevelScene, e: Entity, keepBursts: bool): LevelScene
  {
    match e
    case Spinner(_, _, _, _, _) => CountEnemy(Queue(sc, e))
    case Burst(_, _, _, _, _) => CountEnemy(if keepBursts then Queue(sc, e) else sc)
    case Other => sc
    case _ => Queue(sc, e)
  }

  /** Reading the records of several entities in order. */
  function ApplyAll(sc: LevelScene, es: seq<Entity>, keepBursts: bool): LevelScene
    decreases |es|
  {
    if es == [] then sc else Apply(ApplyAll(sc, es[..|es| - 1], keepBursts), es[|es| - 1], keepBursts)
  }

  /** The number of enemies among `es`. */
  function Enemies(es: seq<Entity>): nat
  {
    if es == [] then 0
    else Enemies(es[..|es| - 1]) + (if es[|es| - 1].Spinner? || es[|es| - 1].Burst? then 1 else 0)
  }

  /** The entities of `es` a parser queues when it reads their records. */
  function Kept(es: seq<Entity>, keepBursts: bool): seq<Entity>
  {
    if es == [] then []
    else
      var last := es[|es| - 1];
      Kept(es[..|es| - 1], keepBursts) + (if last.Other? || (last.Burst? && !keepBursts) then [] else [last])
  }

  /** Where the `j`-th field of a record line at `p` ends: the value `*index` has after it
      is read. */
  function End(p: nat, ts: seq<string>, j: nat): int
    requires j < |ts|
  {
    p + 1 + |Fields(ts[..j + 1])|
  }

  /** Where the newline of `line` sits when the line starts at `p`. */
  function Newline(p: nat, line: string): int
  {
    p + |line| - 1
  }

  /** The readers chained over a record line: the fields come back in order, each reader
      starting where the previous one left `*index`. */
  predicate ReadsBack(s: string, p: nat, ts: seq<string>)
  {
    |ts| > 0 &&
    ReadToken(s, p) == Read(ts[0], End(p, ts, 0)) &&
    forall j :: 0 < j < |ts| ==> ReadToken(s, End(p, ts, j - 1)) == Read(ts[j], End(p, ts, j))
  }

  /** Reading a record line at `p` gives back its fields, and leaves `*index` at its newline. */
  lemma LineReadsBack(s: string, p: nat, c: char, ts: seq<string>)
    requires c != ' ' && ts != [] && forall k :: 0 <= k < |ts| ==> Clean(ts[k])
    requires LineAt(s, p, Line(c, ts))
    ensures ReadsBack(s, p, ts)
    ensures End(p, ts, |ts| - 1) == Newline(p, Line(c, ts))
  {
    LineField(s, p, c, ts, 0);
    forall j | 0 < j < |ts|
      ensures ReadToken(s, End(p, ts, j - 1)) == Read(ts[j], End(p, ts, j))
    {
      NextField(s, p, c, ts, j);
    }
    assert ts[..|ts| - 1 + 1] == ts;
  }

  lemma NextField(s: string, p: nat, c: char, ts: seq<string>, j: nat)
    requires c != ' ' && forall k :: 0 <= k < |ts| ==> Clean(ts[k])
    requires LineAt(s, p, Line(c, ts))
    requires 0 < j < |ts|
    ensures ReadToken(s, End(p, ts, j - 1)) == Read(ts[j], End(p, ts, j))
  {
    LineField(s, p, c, ts, j);
    assert ts[..j - 1 + 1] == ts[..j];
  }

  /** A door line read back. */
  lemma DoorLine(s: string, p: nat, ts: seq<string>, sc: LevelScene)
    requires |ts| == 3 && ReadsBack(s, p, ts) && Stoi(ts[0]).Some?
    ensures DoorRecord(s, p, sc) == Ok(Read(Queue(sc, Door(Vec2(ts[1], ts[2]), Stoi(ts[0]).value)), End(p, ts, 2)))
  {
    assert ReadToken(s, End(p, ts, 0)) == Read(ts[1], End(p, ts, 1));
    assert ReadToken(s, End(p, ts, 1)) == Read(ts[2], End(p, ts, 2));
  }

  /** A player line read back. */
  lemma PlayerLine(s: string, p: nat, ts: seq<string>, sc: LevelScene)
    requires |ts| == 2 && ReadsBack(s, p, ts)
    ensures PlayerRecord(s, p, sc) == Ok(Read(Queue(sc, Player(Vec2(ts[0], ts[1]))), End(p, ts, 1)))
  {
    assert ReadToken(s, End(p, ts, 0)) == Read(ts[1], End(p, ts, 1));
  }

  /** A wall line read back. */
  lemma WallLine(s: string, p: nat, ts: seq<string>, sc: LevelScene)
    requires |ts| == 4 && ReadsBack(s, p, ts)
    ensures WallRecord(s, p, sc) == Ok(Read(Queue(sc, Wall(Vec2(ts[0], ts[1]), Vec2(ts[2], ts[3]))), End(p, ts, 3)))
  {
    assert ReadToken(s, End(p, ts, 0)) == Read(ts[1], End(p, ts, 1));
    assert ReadToken(s, End(p, ts, 1)) == Read(ts[2], End(p, ts, 2));
    assert ReadToken(s, End(p, ts, 2)) == Read(ts[3], End(p, ts, 3));
  }

  /** A text line read back: the string comes back unescaped.  Only the first four fields
      are read, however many the line holds. */
  lemma TextLine(s: string, p: nat, ts: seq<string>, sc: LevelScene)
    requires |ts| >= 4 && ReadsBack(s, p, ts)
    ensures TextRecord(s, p, sc) == Ok(Read(Queue(sc, Text(Vec2(ts[0], ts[1]), ts[2], Unescape(ts[3]))), End(p, ts, 3)))
  {
    assert ReadToken(s, End(p, ts, 0)) == Read(ts[1], End(p, ts, 1));
    assert ReadToken(s, End(p, ts, 1)) == Read(ts[2], End(p, ts, 2));
    assert ReadToken(s, End(p, ts, 2)) == Read(ts[3], End(p, ts, 3));
  }

  /** A spinner line read back: one spinner queued and counted. */
  lemma SpinnerLine(s: string, p: nat, ts: seq<string>, sc: LevelScene, keepBursts: bool)
    requires |ts| == 7 && ReadsBack(s, p, ts) && ts[0] == "spinner" && Stoi(ts[6]).Some?
    ensures var e := Spinner(Vec2(ts[1], ts[2]), ts[3], ts[4], ts[5], Stoi(ts[6]).value);
            EnemyRecord(s, p, sc, keepBursts) == Ok(Read(CountEnemy(Queue(sc, e)), End(p, ts, 6)))
  {
    assert ReadToken(s, End(p, ts, 0)) == Read(ts[1], End(p, ts, 1));
    assert ReadToken(s, End(p, ts, 1)) == Read(ts[2], End(p, ts, 2));
    assert ReadToken(s, End(p, ts, 2)) == Read(ts[3], End(p, ts, 3));
    assert ReadToken(s, End(p, ts, 3)) == Read(ts[4], End(p, ts, 4));
    assert ReadToken(s, End(p, ts, 4)) == Read(ts[5], End(p, ts, 5));
    assert ReadToken(s, End(p, ts, 5)) == Read(ts[6], End(p, ts, 6));
  }

  /** A burst line read back: one enemy counted, and the burst queued only when
      `keepBursts`. */
  lemma BurstLine(s: string, p: nat, ts: seq<string>, sc: LevelScene, keepBursts: bool)
    requires |ts| == 7 && ReadsBack(s, p, ts) && ts[0] == "burst" && Stoi(ts[4]).Some?
    ensures var e := Burst(Vec2(ts[1], ts[2]), ts[3], Stoi(ts[4]).value, ts[5], ts[6]);
            EnemyRecord(s, p, sc, keepBursts) == Ok(Read(CountEnemy(if keepBursts then Queue(sc, e) else sc), End(p, ts, 6)))
  {
    assert ReadToken(s, End(p, ts, 0)) == Read(ts[1], End(p, ts, 1));
    assert ReadToken(s, End(p, ts, 1)) == Read(ts[2], End(p, ts, 2));
    assert ReadToken(s, End(p, ts, 2)) == Read(ts[3], End(p, ts, 3));
    assert ReadToken(s, End(p, ts, 3)) == Read(ts[4], End(p, ts, 4));
    assert ReadToken(s, End(p, ts, 4)) == Read(ts[5], End(p, ts, 5));
    assert ReadToken(s, End(p, ts, 5)) == Read(ts[6], End(p, ts, 6));
  }

  /** A string without escape characters is its own unescaping. */
  lemma UnescapePlain(s: string)
    requires NoMarkers(s)
    ensures Unescape(s) == s
  {
    ReplaceAbsent(s, '|', '\n');
    ReplaceAbsent(s, '_', ' ');
  }

  lemma CleanWords()
    ensures Clean("spinner") && Clean("burst")
  {
  }

  /** The record of one entity, as the serializer writes it, read back at `p`. */
  lemma RecordLine(s: string, p: nat, e: Entity, sc: LevelScene, keepBursts: bool, escapeText: bool)
    requires WellFormed(e, escapeText) && !e.Other?
    requires LineAt(s, p, EntityLine(e, escapeText))
    ensures p < |s| && EntityLine(e, escapeText) != []
    ensures Record(s, p, sc, keepBursts) == Ok(Read(Apply(sc, e, keepBursts), Newline(p, EntityLine(e, escapeText))))
  {
    match e
    case Door(pos, id) =>
      DoorRecordLine(s, p, pos, id, sc, keepBursts);
    case Player(pos) =>
      PlayerRecordLine(s, p, pos, sc, keepBursts);
    case Wall(pos, size) =>
      WallRecordLine(s, p, pos, size, sc, keepBursts);
    case Text(pos, size, text) =>
      var written := if escapeText then Escape(text) else text;
      if escapeText {
        EscapeRoundTrip(text);
      } else {
        UnescapePlain(text);
      }
      TextRecordLine(s, p, pos, size, text, written, sc, keepBursts);
    case Spinner(pos, dir, offset, rps, shots) =>
      SpinnerRecordLine(s, p, pos, dir, offset, rps, shots, EntityLine(e, escapeText), sc, keepBursts);
    case Burst(pos, offset, shots, time, cooldown) =>
      BurstRecordLine(s, p, pos, offset, shots, time, cooldown, EntityLine(e, escapeText), sc, keepBursts);
  }

  lemma DoorRecordLine(s: string, p: nat, pos: Vec2, id: int, sc: LevelScene, keepBursts: bool)
    requires CleanVec(pos) && Int32(id)
    requires LineAt(s, p, Line('d', [IntText(id), pos.x, pos.y]))
    ensures p < |s|
    ensures Record(s, p, sc, keepBursts) == Ok(Read(Queue(sc, Door(pos, id)), Newline(p, Line('d', [IntText(id), pos.x, pos.y]))))
  {
    var ts := [IntText(id), pos.x, pos.y];
    LineAtIndex(s, p, Line('d', ts), 0);
    LineReadsBack(s, p, 'd', ts);
    StoiIntText(id);
    DoorLine(s, p, ts, sc);
  }

  lemma PlayerRecordLine(s: string, p: nat, pos: Vec2, sc: LevelScene, keepBursts: bool)
    requires CleanVec(pos)
    requires LineAt(s, p, Line('p', [pos.x, pos.y]))
    ensures p < |s|
    ensures Record(s, p, sc, keepBursts) == Ok(Read(Queue(sc, Player(pos)), Newline(p, Line('p', [pos.x, pos.y]))))
  {
    var ts := [pos.x, pos.y];
    LineAtIndex(s, p, Line('p', ts), 0);
    LineReadsBack(s, p, 'p', ts);
    PlayerLine(s, p, ts, sc);
  }

  lemma WallRecordLine(s: string, p: nat, pos: Vec2, size: Vec2, sc: LevelScene, keepBursts: bool)
    requires CleanVec(pos) && CleanVec(size)
    requires LineAt(s, p, Line('w', [pos.x, pos.y, size.x, size.y]))
    ensures p < |s|
    ensures Record(s, p, sc, keepBursts) == Ok(Read(Queue(sc, Wall(pos, size)), Newline(p, Line('w', [pos.x, pos.y, size.x, size.y]))))
  {
    var ts := [pos.x, pos.y, size.x, size.y];
    LineAtIndex(s, p, Line('w', ts), 0);
    LineReadsBack(s, p, 'w', ts);
    WallLine(s, p, ts, sc);
  }

  lemma TextRecordLine(s: string, p: nat, pos: Vec2, size: Token, text: string, written: string, sc: LevelScene, keepBursts: bool)
    requires CleanVec(pos) && Clean(size) && Clean(written) && Unescape(written) == text
    requires LineAt(s, p, Line('t', [pos.x, pos.y, size, written]))
    ensures p < |s|
    ensures Record(s, p, sc, keepBursts) == Ok(Read(Queue(sc, Text(pos, size, text)), Newline(p, Line('t', [pos.x, pos.y, size, written]))))
  {
    var ts := [pos.x, pos.y, size, written];
    LineAtIndex(s, p, Line('t', ts), 0);
    LineReadsBack(s, p, 't', ts);
    TextLine(s, p, ts, sc);
  }

  lemma SpinnerRecordLine(s: string, p: nat, pos: Vec2, dir: Token, offset: Token, rps: Token, shots: int, line: string, sc: LevelScene, keepBursts: bool)
    requires CleanVec(pos) && Clean(dir) && Clean(offset) && Clean(rps) && Int32(shots)
    requires line == Line('e', ["spinner", pos.x, pos.y, dir, offset, rps, IntText(shots)])
    requires LineAt(s, p, line)
    ensures p < |s|
    ensures Record(s, p, sc, keepBursts) == Ok(Read(CountEnemy(Queue(sc, Spinner(pos, dir, offset, rps, shots))), Newline(p, line)))
  {
    CleanWords();
    var ts := ["spinner", pos.x, pos.y, dir, offset, rps, IntText(shots)];
    LineAtIndex(s, p, line, 0);
    LineReadsBack(s, p, 'e', ts);
    StoiIntText(shots);
    RecordIsEnemy(s, p, sc, keepBursts);
    SpinnerLine(s, p, ts, sc, keepBursts);
  }

  lemma BurstRecordLine(s: string, p: nat, pos: Vec2, offset: Token, shots: int, time: Token, cooldown: Token, line: string, sc: LevelScene, keepBursts: bool)
    requires CleanVec(pos) && Clean(offset) && Int32(shots) && Clean(time) && Clean(cooldown)
    requires line == Line('e', ["burst", pos.x, pos.y, offset, IntText(shots), time, cooldown])
    requires LineAt(s, p, line)
    ensures p < |s|
    ensures Record(s, p, sc, keepBursts) ==
            Ok(Read(CountEnemy(if keepBursts then Queue(sc, Burst(pos, offset, shots, time, cooldown)) else sc), Newline(p, line)))
  {
    CleanWords();
    var ts := ["burst", pos.x, pos.y, offset, IntText(shots), time, cooldown];
    LineAtIndex(s, p, line, 0);
    LineReadsBack(s, p, 'e', ts);
    StoiIntText(shots);
    RecordIsEnemy(s, p, sc, keepBursts);
    BurstLine(s, p, ts, sc, keepBursts);
  }

  lemma RecordIsEnemy(s: string, p: nat, sc: LevelScene, keepBursts: bool)
    requires p < |s| && s[p] == 'e'
    ensures Record(s, p, sc, keepBursts) == EnemyRecord(s, p, sc, keepBursts)
  {
  }

  lemma RecordIsId(s: string, p: nat, sc: LevelScene, keepBursts: bool)
    requires p < |s| && s[p] == 'L'
    ensures Record(s, p, sc, keepBursts) == IdRecord(s, p, sc)
  {
  }

  /** An "L" line read back. */
  lemma IdLine(s: string, p: nat, ts: seq<string>, sc: LevelScene)
    requires |ts| == 1 && ReadsBack(s, p, ts) && Stoi(ts[0]).Some?
    ensures IdRecord(s, p, sc) == Ok(Read(sc.(id := Stoi(ts[0]).value, requestId := Stoi(ts[0]).value), End(p, ts, 0)))
  {
  }

  /** The header line, as the serializer writes it, read back at `p`. */
  lemma HeaderRecordLine(s: string, p: nat, id: int, line: string, sc: LevelScene, keepBursts: bool)
    requires Int32(id) && line == Line('L', [IntText(id)]) && LineAt(s, p, line)
    ensures Record(s, p, sc, keepBursts) == Ok(Read(sc.(id := id, requestId := id), Newline(p, line)))
  {
    var ts := [IntText(id)];
    LineAtIndex(s, p, line, 0);
    LineReadsBack(s, p, 'L', ts);
    StoiIntText(id);
    RecordIsId(s, p, sc, keepBursts);
    IdLine(s, p, ts, sc);
  }

  lemma {:induction false} LineAtSplit(s: string, p: nat, a: string, b: string)
    requires LineAt(s, p, a + b)
    ensures LineAt(s, p, a) && LineAt(s, p + |a|, b)
    decreases |a|
  {
    if a == [] {
      assert a + b == b;
    } else {
      assert (a + b)[0] == a[0];
      assert (a + b)[1..] == a[1..] + b;
      LineAtSplit(s, p + 1, a[1..], b);
    }
  }

  /** Reading the lines of `es` applies their entities to the scene in order; an entity the
      serializer writes nothing for is skipped. */
  lemma {:induction false} ParseBody(s: string, i: nat, j: nat, es: seq<Entity>, sc: LevelScene, keepBursts: bool, escapeText: bool)
    requires forall k :: 0 <= k < |es| ==> WellFormed(es[k], escapeText)
    requires LineAt(s, i, Body(es, escapeText)) && j == i + |Body(es, escapeText)|
    ensures ParseFrom(s, i, sc, keepBursts) == ParseFrom(s, j, ApplyAll(sc, es, keepBursts), keepBursts)
    decreases |es|
  {
    if es == [] {
      assert j == i;
    } else {
      var n := |es| - 1;
      var m := ParseLast(s, i, j, es, es[..n], sc, keepBursts, escapeText);
      ParseBody(s, i, m, es[..n], sc, keepBursts, escapeText);
    }
  }

  /** The last entity's line of a body. */
  lemma ParseLast(s: string, i: nat, j: nat, es: seq<Entity>, init: seq<Entity>, sc: LevelScene, keepBursts: bool, escapeText: bool) returns (m: nat)
    requires es != [] && init == es[..|es| - 1]
    requires forall k :: 0 <= k < |es| ==> WellFormed(es[k], escapeText)
    requires LineAt(s, i, Body(es, escapeText)) && j == i + |Body(es, escapeText)|
    ensures forall k :: 0 <= k < |init| ==> WellFormed(init[k], escapeText)
    ensures LineAt(s, i, Body(init, escapeText)) && m == i + |Body(init, escapeText)|
    ensures ParseFrom(s, m, ApplyAll(sc, init, keepBursts), keepBursts) == ParseFrom(s, j, ApplyAll(sc, es, keepBursts), keepBursts)
  {
    var n := |es| - 1;
    var done := Body(es[..n], escapeText);
    var line := EntityLine(es[n], escapeText);
    BodyLast(es, escapeText);
    LineAtSplit(s, i, done, line);
    m := i + |done|;
    assert WellFormed(es[n], escapeText);
    assert LineAt(s, m, line) && j == m + |line|;
    ParseEntity(s, m, j, es[n], ApplyAll(sc, es[..n], keepBursts), keepBursts, escapeText);
  }

  /** A body ends with the line of its last entity. */
  lemma BodyLast(es: seq<Entity>, escapeText: bool)
    requires es != []
    ensures Body(es, escapeText) == Body(es[..|es| - 1], escapeText) + EntityLine(es[|es| - 1], escapeText)
  {
  }

  /** Reading the line of one entity, possibly empty. */
  lemma ParseEntity(s: string, i: nat, j: nat, e: Entity, sc: LevelScene, keepBursts: bool, escapeText: bool)
    requires WellFormed(e, escapeText)
    requires LineAt(s, i, EntityLine(e, escapeText)) && j == i + |EntityLine(e, escapeText)|
    ensures ParseFrom(s, i, sc, keepBursts) == ParseFrom(s, j, Apply(sc, e, keepBursts), keepBursts)
  {
    if !e.Other? {
      ParseLine(s, i, j, e, sc, keepBursts, escapeText);
    }
  }

  /** The parser's loop over the line of one entity. */
  lemma ParseLine(s: string, i: nat, j: nat, e: Entity, sc: LevelScene, keepBursts: bool, escapeText: bool)
    requires WellFormed(e, escapeText) && !e.Other?
    requires LineAt(s, i, EntityLine(e, escapeText)) && j == i + |EntityLine(e, escapeText)|
    ensures ParseFrom(s, i, sc, keepBursts) == ParseFrom(s, j, Apply(sc, e, keepBursts), keepBursts)
  {
    RecordLine(s, i, e, sc, keepBursts, escapeText);
    StepTo(s, i, sc, keepBursts, Apply(sc, e, keepBursts), Newline(i, EntityLine(e, escapeText)), j);
  }

  /** A record at `i` that ends at `k` hands the loop over to `k + 1`. */
  lemma StepTo(s: string, i: nat, sc: LevelScene, keepBursts: bool, sc': LevelScene, k: int, j: nat)
    requires i < |s| && Record(s, i, sc, keepBursts) == Ok(Read(sc', k)) && i <= k && j == k + 1
    ensures ParseFrom(s, i, sc, keepBursts) == ParseFrom(s, j, sc', keepBursts)
  {
  }

  /** The parser's loop over the header line. */
  lemma ParseHeader(s: string, id: int, j: nat, sc: LevelScene, keepBursts: bool)
    requires Int32(id) && LineAt(s, 0, Line('L', [IntText(id)])) && j == |Line('L', [IntText(id)])|
    ensures ParseFrom(s, 0, sc, keepBursts) == ParseFrom(s, j, sc.(id := id, requestId := id), keepBursts)
  {
    HeaderRecordLine(s, 0, id, Line('L', [IntText(id)]), sc, keepBursts);
    StepTo(s, 0, sc, keepBursts, sc.(id := id, requestId := id), Newline(0, Line('L', [IntText(id)])), j);
  }

  /** Reading entities adds the enemies among them to the count, and queues those kept, in
      order. */
  lemma {:induction false} ApplyAllIs(sc: LevelScene, es: seq<Entity>, keepBursts: bool)
    ensures ApplyAll(sc, es, keepBursts) ==
            LevelScene(sc.id, sc.requestId, sc.enemyCount + Enemies(es), sc.queued + Kept(es, keepBursts))
    decreases |es|
  {
    if es == [] {
      assert sc.queued + [] == sc.queued;
    } else {
      var n := |es| - 1;
      ApplyAllIs(sc, es[..n], keepBursts);
      var kept := Kept(es[..n], keepBursts);
      if !(es[n].Other? || (es[n].Burst? && !keepBursts)) {
        assert sc.queued + kept + [es[n]] == sc.queued + (kept + [es[n]]);
      } else {
        assert kept + [] == kept;
      }
    }
  }

  /** What the serializer writes, the parser reads back: the level id as both ids, the
      enemies counted, and the entities it keeps queued in order. */
  lemma RoundTrip(id: int, es: seq<Entity>, keepBursts: bool, escapeText: bool)
    requires Int32(id) && forall k :: 0 <= k < |es| ==> WellFormed(es[k], escapeText)
    ensures ParseFrom(LevelText(id, es, escapeText), 0, NewScene, keepBursts) ==
            Ok(LevelScene(id, id, Enemies(es), Kept(es, keepBursts)))
  {
    var header := Line('L', [IntText(id)]);
    var s := LevelText(id, es, escapeText);
    LineAtPair(header, Body(es, escapeText));
    var sc1 := NewScene.(id := id, requestId := id);
    ParseHeader(s, id, |header|, NewScene, keepBursts);
    ParseBody(s, |header|, |s|, es, sc1, keepBursts, escapeText);
    ApplyAllIs(sc1, es, keepBursts);
    ParseEnd(s, ApplyAll(sc1, es, keepBursts), keepBursts);
    assert [] + Kept(es, keepBursts) == Kept(es, keepBursts);
  }

  /** Two lines written one after the other. */
  lemma LineAtPair(x: string, y: string)
    ensures LineAt(x + y, 0, x) && LineAt(x + y, |x|, y)
  {
    assert [] + x + y == x + y == x + y + [];
    LineAtOf([], x, y);
    LineAtOf(x, y, []);
  }

  /** At the end of the text the loop stops with the scene it has. */
  lemma ParseEnd(s: string, sc: LevelScene, keepBursts: bool)
    ensures ParseFrom(s, |s|, sc, keepBursts) == Ok(sc)
  {
  }

  /** With no entity the serializer skips, the parser that keeps bursts keeps everything. */
  lemma {:induction false} KeptAll(es: seq<Entity>)
    requires forall k :: 0 <= k < |es| ==> !es[k].Other?
    ensures Kept(es, true) == es
    decreases |es|
  {
    if es != [] {
      var n := |es| - 1;
      assert forall k :: 0 <= k < n ==> es[..n][k] == es[k];
      KeptAll(es[..n]);
      assert es[..n] + [es[n]] == es;
    }
  }

  /** The serializer that escapes text strings and the parser that queues bursts are inverse:
      every entity comes back, in order, with the level id and the enemy count. */
  lemma FixedRoundTrip(id: int, es: seq<Entity>)
    requires Int32(id) && forall k :: 0 <= k < |es| ==> WellFormed(es[k], true) && !es[k].Other?
    ensures ParseFrom(LevelText(id, es, true), 0, NewScene, true) == Ok(LevelScene(id, id, Enemies(es), es))
  {
    RoundTrip(id, es, true, true);
    KeptAll(es);
  }

  /** As written, a burst enemy the serializer writes is counted when read back but never
      queued. */
  lemma BurstNotReadBack(id: int, b: Entity)
    requires Int32(id) && b.Burst? && WellFormed(b, false)
    ensures ParseFrom(LevelText(id, [b], false), 0, NewScene, false) == Ok(LevelScene(id, id, 1, []))
  {
    RoundTrip(id, [b], false, false);
    assert [b][..0] == [];
    assert Enemies([b]) == 1;
    assert Kept([b], false) == [];
  }

  /** A character that starts no record is stepped over. */
  lemma SkipPlain(s: string, i: nat, j: nat, sc: LevelScene, keepBursts: bool)
    requires i < |s| && s[i] !in "Ldpwte" && j == i + 1
    ensures ParseFrom(s, i, sc, keepBursts) == ParseFrom(s, j, sc, keepBursts)
  {
    StepTo(s, i, sc, keepBursts, sc, i, j);
  }

  lemma RecordIsText(s: string, p: nat, sc: LevelScene, keepBursts: bool)
    requires p < |s| && s[p] == 't'
    ensures Record(s, p, sc, keepBursts) == TextRecord(s, p, sc)
  {
  }

  /** From a position where no character up to the end starts a record, the loop only steps
      to the end. */
  lemma {:induction false} SkipRest(s: string, i: nat, sc: LevelScene, keepBursts: bool)
    requires forall k :: i <= k < |s| ==> s[k] !in "Ldpwte"
    ensures ParseFrom(s, i, sc, keepBursts) == Ok(sc)
    decreases |s| - i
  {
    if i < |s| {
      SkipPlain(s, i, i + 1, sc, keepBursts);
      SkipRest(s, i + 1, sc, keepBursts);
    }
  }

  /** The line of a text entity whose string is `a`, a space, then `b`, is the line of five
      fields `a` and `b` being the last two. */
  lemma SpacedTextLine(pos: Vec2, size: Token, a: string, b: string)
    ensures var ts := [pos.x, pos.y, size, a, b];
            EntityLine(Text(pos, size, a + " " + b), false) == Line('t', ts) &&
            Line('t', ts) == ['t'] + Fields(ts[..4]) + " " + b + "\n" &&
            Fields(ts[..4]) == Fields(ts[..3]) + " " + a
  {
    var ts := [pos.x, pos.y, size, a, b];
    var t4 := [pos.x, pos.y, size, a + " " + b];
    assert ts[..4][..3] == ts[..3] == t4[..3];
    assert Fields(t4) == Fields(ts[..3]) + " " + (a + " " + b);
    assert Fields(ts) == Fields(ts[..3]) + " " + a + " " + b;
  }

  /** As written, a text entity whose string holds a space does not come back: the parser
      keeps the string only up to the space, and the rest of the line starts no record. */
  lemma TextCutAtSpace(id: int, pos: Vec2, size: Token, a: string, b: string, keepBursts: bool)
    requires Int32(id) && CleanVec(pos) && Clean(size) && Clean(a) && Clean(b) && NoMarkers(a)
    requires forall k :: 0 <= k < |b| ==> b[k] !in "Ldpwte"
    ensures ParseFrom(LevelText(id, [Text(pos, size, a + " " + b)], false), 0, NewScene, keepBursts) ==
            Ok(LevelScene(id, id, 0, [Text(pos, size, a)]))
  {
    var e := Text(pos, size, a + " " + b);
    var line := Line('t', [pos.x, pos.y, size, a, b]);
    var header := Line('L', [IntText(id)]);
    SpacedTextLine(pos, size, a, b);
    OneEntityLevel(id, e, false);
    var s := LevelText(id, [e], false);
    assert s == header + line;
    LineAtPair(header, line);
    var sc1 := NewScene.(id := id, requestId := id);
    ParseHeader(s, id, |header|, NewScene, keepBursts);
    CutRecord(s, header, pos, size, a, b, sc1, keepBursts);
    assert [] + [Text(pos, size, a)] == [Text(pos, size, a)];
  }

  /** The record of the text line with the space, read to the end of the text. */
  lemma CutRecord(s: string, front: string, pos: Vec2, size: Token, a: string, b: string, sc: LevelScene, keepBursts: bool)
    requires CleanVec(pos) && Clean(size) && Clean(a) && Clean(b) && NoMarkers(a)
    requires forall k :: 0 <= k < |b| ==> b[k] !in "Ldpwte"
    requires s == front + Line('t', [pos.x, pos.y, size, a, b])
    ensures ParseFrom(s, |front|, sc, keepBursts) == Ok(Queue(sc, Text(pos, size, a)))
  {
    var ts := [pos.x, pos.y, size, a, b];
    var h := |front|;
    LineAtPair(front, Line('t', ts));
    SpacedTextRecord(s, h, pos, size, a, b, sc, keepBursts);
    var sc2 := Queue(sc, Text(pos, size, a));
    var k := End(h, ts, 3) + 1;
    CutTail(s, front, pos, size, a, b, k);
    StepTo(s, h, sc, keepBursts, sc2, End(h, ts, 3), k);
    SkipRest(s, k, sc2, keepBursts);
  }

  /** After the space of that line, no character starts a record. */
  lemma CutTail(s: string, front: string, pos: Vec2, size: Token, a: string, b: string, k: nat)
    requires forall k :: 0 <= k < |b| ==> b[k] !in "Ldpwte"
    requires s == front + Line('t', [pos.x, pos.y, size, a, b])
    requires k == End(|front|, [pos.x, pos.y, size, a, b], 3) + 1
    ensures forall i :: k <= i < |s| ==> s[i] !in "Ldpwte"
  {
    var ts := [pos.x, pos.y, size, a, b];
    var prefix := ['t'] + Fields(ts[..4]) + " ";
    SpacedTextLine(pos, size, a, b);
    assert s == (front + prefix) + (b + "\n");
    assert k == |front + prefix|;
    PlainTail(s, front + prefix, b);
  }

  lemma OneEntityLevel(id: int, e: Entity, escapeText: bool)
    ensures LevelText(id, [e], escapeText) == Line('L', [IntText(id)]) + EntityLine(e, escapeText)
  {
    assert [e][..0] == [];
    assert Body([e], escapeText) == Body([], escapeText) + EntityLine(e, escapeText);
  }

  lemma PlainTail(s: string, front: string, b: string)
    requires s == front + (b + "\n") && forall k :: 0 <= k < |b| ==> b[k] !in "Ldpwte"
    ensures forall k :: |front| <= k < |s| ==> s[k] !in "Ldpwte"
  {
    forall k | |front| <= k < |s|
      ensures s[k] !in "Ldpwte"
    {
      if k < |front| + |b| {
        assert s[k] == b[k - |front|];
      } else {
        assert s[k] == '\n';
      }
    }
  }

  /** The text record of that line keeps only the part of the string before the space, and
      leaves `*index` at the space. */
  lemma SpacedTextRecord(s: string, h: nat, pos: Vec2, size: Token, a: string, b: string, sc: LevelScene, keepBursts: bool)
    requires CleanVec(pos) && Clean(size) && Clean(a) && Clean(b) && NoMarkers(a)
    requires LineAt(s, h, Line('t', [pos.x, pos.y, size, a, b]))
    ensures var ts := [pos.x, pos.y, size, a, b];
            Record(s, h, sc, keepBursts) == Ok(Read(Queue(sc, Text(pos, size, a)), End(h, ts, 3)))
  {
    var ts := [pos.x, pos.y, size, a, b];
    LineAtIndex(s, h, Line('t', ts), 0);
    LineReadsBack(s, h, 't', ts);
    RecordIsText(s, h, sc, keepBursts);
    TextLine(s, h, ts, sc);
    UnescapePlain(a);
  }

  /** The smallest such text: the string "a b" comes back as "a". */
  lemma TextSplitsAtSpace()
    ensures ParseFrom(LevelText(0, [Text(Vec2("0", "0"), "1", "a b")], false), 0, NewScene, false) ==
            Ok(LevelScene(0, 0, 0, [Text(Vec2("0", "0"), "1", "a")]))
  {
    assert Clean("0") && Clean("1") && Clean("a") && Clean("b") && NoMarkers("a");
    assert "b"[0] !in "Ldpwte";
    assert "a" + " " + "b" == "a b";
    TextCutAtSpace(0, Vec2("0", "0"), "1", "a", "b", false);
  }
}
