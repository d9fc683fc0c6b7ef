/**
 The line configuration of the libgpiod backend: which declarations are accepted, and why
 the safe level of every accepted line leaves its load without power.
 */
module LibgpiodConfig {
  import opened Prelude
  import opened Lines
  import Decimal

  datatype Direction = Input | Output
  datatype Polarity = ActiveHigh | ActiveLow
  datatype SafeLevel = Low | High | HighZ | Hold
  datatype Bias = PullUp | PullDown | Disabled | AsIs
  /** A raw electrical level. */
  datatype Raw = Raw0 | Raw1

  datatype Line = Line(name: string, offset: nat, direction: Direction, polarity: Polarity, safeLevel: SafeLevel,
                       bias: Bias)

  /** One of a fixed list of words: missing, null, another value, or a listed word. */
  datatype Word<+T> = Missing | Null | Unlisted | Known(word: T)

  datatype Entry =
    | NotAnObject
    | Entry(offset: Field<nat>, name: Field<string>, direction: Word<Direction>, polarity: Word<Polarity>,
            safeLevel: Word<SafeLevel>, bias: Word<Bias>)

  datatype ConfigError =
    | EntryNotAnObject | BadOffset | DuplicateOffset | BadName | DuplicateName | BadDirection | BadPolarity
    | BadSafeLevel | InputDriven | ActiveHighEnergized | ActiveLowEnergized | BadBias | OutputBias

  datatype Result<+T> = Ok(value: T) | Err(index: nat, error: ConfigError)

  function LogicalToRaw(value: bool, polarity: Polarity): Raw {
    if polarity == ActiveLow then if value then Raw0 else Raw1
    else if value then Raw1 else Raw0
  }

  function RawToLogical(raw: Raw, polarity: Polarity): bool {
    if polarity == ActiveLow then raw == Raw0 else raw == Raw1
  }

  /** The two translations are inverse, so a raw level is active exactly when it was asked for. */
  lemma {:induction false} LevelsInvert(value: bool, raw: Raw, polarity: Polarity)
    ensures RawToLogical(LogicalToRaw(value, polarity), polarity) == value
    ensures LogicalToRaw(RawToLogical(raw, polarity), polarity) == raw
  {
  }

  /** The raw level a driven safe level stands for. */
  function SafeRaw(level: SafeLevel): Raw {
    if level == High then Raw1 else Raw0
  }

  predicate Driven(level: SafeLevel) {
    level == Low || level == High
  }

  // ---- What an entry means ----

  function OffsetOf(e: Entry): nat {
    if e.Entry? && e.offset.Value? then e.offset.value else 0
  }

  function NameOf(e: Entry): string {
    if e.Entry? && e.name.Value? then Trim(e.name.value) else "line" + Decimal.NatText(OffsetOf(e))
  }

  function DirectionOf(e: Entry): Direction {
    if e.Entry? && e.direction.Known? then e.direction.word else Input
  }

  function PolarityOf(e: Entry): Polarity {
    if e.Entry? && e.polarity.Known? then e.polarity.word else ActiveHigh
  }

  function SafeLevelOf(e: Entry): SafeLevel {
    if e.Entry? && e.safeLevel.Known? then e.safeLevel.word
    else if DirectionOf(e) == Input then HighZ
    else if PolarityOf(e) == ActiveLow then High
    else Low
  }

  function LineOf(e: Entry): Line {
    Line(NameOf(e), OffsetOf(e), DirectionOf(e), PolarityOf(e), SafeLevelOf(e),
         if e.Entry? && e.bias.Known? then e.bias.word else AsIs)
  }

  /** Driving the safe level is possible and leaves the load off. */
  predicate Deenergizing(direction: Direction, polarity: Polarity, level: SafeLevel) {
    Driven(level) ==> direction == Output && !RawToLogical(SafeRaw(level), polarity)
  }

  predicate WellFormed(e: Entry) {
    && e.Entry? && e.offset.Value?
    && (e.name.Absent? || (e.name.Value? && Trim(e.name.value) != ""))
    && !e.direction.Unlisted? && !e.polarity.Unlisted?
    && (e.safeLevel.Missing? || (e.safeLevel.Known? && Deenergizing(DirectionOf(e), PolarityOf(e), e.safeLevel.word)))
    && (e.bias.Missing? || (e.bias.Known? && (DirectionOf(e) == Output ==> e.bias.word == AsIs)))
  }

  ghost predicate DistinctOffsets(entries: seq<Entry>) {
    forall i, j :: 0 <= i < j < |entries| ==> OffsetOf(entries[i]) != OffsetOf(entries[j])
  }

  ghost predicate DistinctNames(entries: seq<Entry>) {
    forall i, j :: 0 <= i < j < |entries| ==> NameOf(entries[i]) != NameOf(entries[j])
  }

  ghost predicate Acceptable(entries: seq<Entry>) {
    (forall i :: 0 <= i < |entries| ==> WellFormed(entries[i])) && DistinctOffsets(entries) && DistinctNames(entries)
  }

  // ---- The validator ----

  /** One entry, checked in the order of the source. */
  function ReadEntry(e: Entry, index: nat, seenOffsets: set<nat>, seenNames: set<string>): Result<Line> {
    if e.NotAnObject? then Err(index, EntryNotAnObject)
    else if !e.offset.Value? then Err(index, BadOffset)
    else if e.offset.value in seenOffsets then Err(index, DuplicateOffset)
    else if e.name.WrongType? || (e.name.Value? && Trim(e.name.value) == "") then Err(index, BadName)
    else
      var name := if e.name.Absent? then "line" + Decimal.NatText(e.offset.value) else Trim(e.name.value);
      if name in seenNames then Err(index, DuplicateName)
      else if e.direction.Unlisted? then Err(index, BadDirection)
      else if e.polarity.Unlisted? then Err(index, BadPolarity)
      else
        var direction := if e.direction.Known? then e.direction.word else Input;
        var polarity := if e.polarity.Known? then e.polarity.word else ActiveHigh;
        if e.safeLevel.Null? || e.safeLevel.Unlisted? then Err(index, BadSafeLevel)
        else if e.safeLevel.Known? && direction == Input && Driven(e.safeLevel.word) then Err(index, InputDriven)
        else if e.safeLevel == Known(High) && polarity == ActiveHigh then Err(index, ActiveHighEnergized)
        else if e.safeLevel == Known(Low) && polarity == ActiveLow then Err(index, ActiveLowEnergized)
        else if e.bias.Null? || e.bias.Unlisted? then Err(index, BadBias)
        else if e.bias.Known? && direction == Output && e.bias.word != AsIs then Err(index, OutputBias)
        else
          var safeLevel :=
            if e.safeLevel.Known? then e.safeLevel.word
            else if direction == Input then HighZ
            else if polarity == ActiveLow then High
            else Low;
          Ok(Line(name, e.offset.value, direction, polarity, safeLevel, if e.bias.Known? then e.bias.word else AsIs))
  }

  /** An entry is read exactly when it is well formed and repeats nothing, and is then what it means. */
  lemma {:induction false} ReadsExactly(e: Entry, index: nat, seenOffsets: set<nat>, seenNames: set<string>)
    ensures ReadEntry(e, index, seenOffsets, seenNames).Ok? <==>
            WellFormed(e) && OffsetOf(e) !in seenOffsets && NameOf(e) !in seenNames
    ensures ReadEntry(e, index, seenOffsets, seenNames).Ok? ==>
              ReadEntry(e, index, seenOffsets, seenNames).value == LineOf(e)
    ensures ReadEntry(e, index, seenOffsets, seenNames).Err? ==>
              ReadEntry(e, index, seenOffsets, seenNames).index == index
  {
  }

  function OffsetsOf(entries: seq<Entry>): set<nat> {
    set i | 0 <= i < |entries| :: OffsetOf(entries[i])
  }

  function NamesOf(entries: seq<Entry>): set<string> {
    set i | 0 <= i < |entries| :: NameOf(entries[i])
  }

  lemma {:induction false} SeenSnoc(entries: seq<Entry>, e: Entry)
    ensures OffsetsOf(entries + [e]) == OffsetsOf(entries) + {OffsetOf(e)}
    ensures NamesOf(entries + [e]) == NamesOf(entries) + {NameOf(e)}
  {
    var all := entries + [e];
    assert forall i :: 0 <= i < |entries| ==> all[i] == entries[i];
    assert all[|entries|] == e;
  }

  lemma {:induction false} AcceptableSnoc(entries: seq<Entry>, e: Entry)
    requires Acceptable(entries)
    ensures Acceptable(entries + [e]) <==>
              WellFormed(e) && OffsetOf(e) !in OffsetsOf(entries) && NameOf(e) !in NamesOf(entries)
  {
    var all := entries + [e];
    assert forall i :: 0 <= i < |entries| ==> all[i] == entries[i];
    assert all[|entries|] == e;
    if Acceptable(all) {
      assert forall i :: 0 <= i < |entries| ==> OffsetOf(all[i]) != OffsetOf(all[|entries|]);
      assert forall i :: 0 <= i < |entries| ==> NameOf(all[i]) != NameOf(all[|entries|]);
    }
  }

  lemma {:induction false} AcceptablePrefix(entries: seq<Entry>, k: nat)
    requires Acceptable(entries) && k <= |entries|
    ensures Acceptable(entries[..k])
  {
    assert forall i :: 0 <= i < k ==> entries[..k][i] == entries[i];
  }

  /** What the validator says of one entry after reading those before it. */
  function Complaint(entries: seq<Entry>, index: nat): Option<ConfigError>
    requires index < |entries|
  {
    var one := ReadEntry(entries[index], index, OffsetsOf(entries[..index]), NamesOf(entries[..index]));
    if one.Err? then Some(one.error) else None
  }

  function LinesOf(entries: seq<Entry>): (lines: seq<Line>)
    ensures |lines| == |entries| && forall i :: 0 <= i < |entries| ==> lines[i] == LineOf(entries[i])
  {
    if entries == [] then [] else LinesOf(entries[..|entries| - 1]) + [LineOf(entries[|entries| - 1])]
  }

  /** The validator's state after `k` entries. */
  ghost predicate ReadSoFar(entries: seq<Entry>, k: nat, lines: seq<Line>, seenOffsets: set<nat>,
                            seenNames: set<string>)
    requires k <= |entries|
  {
    && Acceptable(entries[..k]) && lines == LinesOf(entries[..k])
    && seenOffsets == OffsetsOf(entries[..k]) && seenNames == NamesOf(entries[..k])
  }

  lemma {:induction false} ReadStep(entries: seq<Entry>, k: nat, lines: seq<Line>, seenOffsets: set<nat>,
                                    seenNames: set<string>)
    requires k < |entries| && ReadSoFar(entries, k, lines, seenOffsets, seenNames)
    ensures var one := ReadEntry(entries[k], k, seenOffsets, seenNames);
            if one.Ok? then
              var line := one.value;
              ReadSoFar(entries, k + 1, lines + [line], seenOffsets + {line.offset}, seenNames + {line.name})
            else ReadFails(entries, k, one.error) && one.index == k
  {
    var before, e := entries[..k], entries[k];
    ReadsExactly(e, k, seenOffsets, seenNames);
    AcceptableSnoc(before, e);
    assert entries[..k + 1] == before + [e];
    if ReadEntry(e, k, seenOffsets, seenNames).Ok? {
      SeenSnoc(before, e);
      LinesSnoc(before, e);
    } else if Acceptable(entries) {
      AcceptablePrefix(entries, k + 1);
    }
  }

  lemma {:induction false} LinesSnoc(entries: seq<Entry>, e: Entry)
    ensures LinesOf(entries + [e]) == LinesOf(entries) + [LineOf(e)]
  {
    assert (entries + [e])[..|entries|] == entries;
  }

  /** Entry `index` is the first at which the declarations stop being acceptable, and this is why. */
  ghost predicate ReadFails(entries: seq<Entry>, index: nat, error: ConfigError) {
    && index < |entries| && Acceptable(entries[..index]) && !Acceptable(entries[..index + 1]) && !Acceptable(entries)
    && Complaint(entries, index) == Some(error)
  }

  /**
   The declarations are accepted exactly when every entry is well formed and no offset or
   name repeats; otherwise the first entry at which that fails is reported.
   */
  method ValidateLines(entries: seq<Entry>) returns (r: Result<seq<Line>>)
    ensures r.Ok? <==> Acceptable(entries)
    ensures r.Ok? ==> r.value == LinesOf(entries)
    ensures r.Err? ==> ReadFails(entries, r.index, r.error)
  {
    var lines: seq<Line> := [];
    var seenOffsets: set<nat>, seenNames: set<string> := {}, {};
    for k := 0 to |entries|
      invariant ReadSoFar(entries, k, lines, seenOffsets, seenNames)
    {
      var one := ReadEntry(entries[k], k, seenOffsets, seenNames);
      ReadStep(entries, k, lines, seenOffsets, seenNames);
      if one.Err? { return Err(one.index, one.error); }
      lines := lines + [one.value];
      seenOffsets := seenOffsets + {one.value.offset};
      seenNames := seenNames + {one.value.name};
    }
    assert entries[..|entries|] == entries;
    r := Ok(lines);
  }

  // ---- What an accepted configuration guarantees ----

  /** Offsets and names tell lines apart, and no safe level gives power to a load. */
  ghost predicate SafeConfig(lines: seq<Line>) {
    && (forall i :: 0 <= i < |lines| ==> SafeLine(lines[i]))
    && (forall i, j :: 0 <= i < j < |lines| ==> lines[i].offset != lines[j].offset && lines[i].name != lines[j].name)
  }

  predicate SafeLine(line: Line) {
    Deenergizing(line.direction, line.polarity, line.safeLevel) && line.name != "" && Trim(line.name) == line.name
  }

  lemma {:induction false} NameIsTrimmed(e: Entry)
    requires WellFormed(e)
    ensures NameOf(e) != "" && Trim(NameOf(e)) == NameOf(e)
  {
    if e.name.Value? {
      TrimTrims(e.name.value);
    } else {
      var digits := Decimal.NatText(OffsetOf(e));
      assert Decimal.IsDigit(digits[|digits| - 1]);
      var name := "line" + digits;
      assert name[0] == 'l' && name[|name| - 1] == digits[|digits| - 1];
    }
  }

  lemma {:induction false} LineIsSafe(e: Entry)
    requires WellFormed(e)
    ensures SafeLine(LineOf(e))
  {
    NameIsTrimmed(e);
  }

  /** Every accepted configuration is safe in this sense. */
  lemma {:induction false} AcceptedIsSafe(entries: seq<Entry>)
    requires Acceptable(entries)
    ensures SafeConfig(LinesOf(entries))
  {
    var lines := LinesOf(entries);
    forall i | 0 <= i < |lines| ensures SafeLine(lines[i]) {
      LineIsSafe(entries[i]);
    }
    forall i, j | 0 <= i < j < |lines| ensures lines[i].offset != lines[j].offset && lines[i].name != lines[j].name {
      assert OffsetOf(entries[i]) != OffsetOf(entries[j]) && NameOf(entries[i]) != NameOf(entries[j]);
    }
  }
}
