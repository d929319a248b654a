/** Resolution and validation of one run's configuration, done once at
    start-up before any question is read: the prior-knowledge text, the
    output file name and the retrieval/prompt mode. */
module Config {
  import opened Wrappers
  import Text

  /** The five evaluation modes. Mode 0 is plain KG-RAG, mode 1 asks for the
      context as JSON records, mode 2 adds prior domain knowledge, mode 3
      combines modes 1 and 2, and mode 4 is mode 0 restricted to context
      that mentions the genes named in the question. */
  datatype Mode = Mode0 | Mode1 | Mode2 | Mode3 | Mode4
  {
    /** Modes whose prompt carries the prior-knowledge block. */
    predicate NeedsPriorKnowledge()
    {
      this == Mode2 || this == Mode3
    }
  }

  /** The `--mode` value that selects a mode. */
  function ModeName(m: Mode): string
  {
    match m
    case Mode0 => "0"
    case Mode1 => "1"
    case Mode2 => "2"
    case Mode3 => "3"
    case Mode4 => "4"
  }

  /** Membership in the list of valid modes, "0" to "4"; anything else,
      including a missing `--mode`, is not a mode. */
  function ParseMode(s: Option<string>): (r: Option<Mode>)
    ensures r.Some? <==> s.Some? && s.value in ["0", "1", "2", "3", "4"]
  {
    match s
    case None => None
    case Some(v) =>
      if v == "0" then Some(Mode0)
      else if v == "1" then Some(Mode1)
      else if v == "2" then Some(Mode2)
      else if v == "3" then Some(Mode3)
      else if v == "4" then Some(Mode4)
      else None
  }

  /** Parsing and naming a mode are inverse to each other. */
  lemma ModeNameRoundTrip(m: Mode, s: string)
    ensures ParseMode(Some(ModeName(m))) == Some(m)
    ensures ParseMode(Some(s)) == Some(m) ==> ModeName(m) == s
  {
  }

  /** The command line after parsing. Absent options are `None`; the two
      indices carry their defaults when not given. */
  datatype Args = Args(
    chatModelId: string,
    mode: Option<string>,
    startIndex: int,
    endIndex: int,
    priorKnowledge: Option<string>,
    priorKnowledgePath: Option<string>)

  const DefaultStartIndex: int := 0
  /** The default last index; the help text calls it exclusive, the loop treats it as inclusive. */
  const DefaultEndIndex: int := 306

  /** The command line with only the model id given. */
  function DefaultArgs(chatModelId: string, mode: Option<string>): (a: Args)
    ensures a.startIndex == 0 && a.endIndex == 306
    ensures a.priorKnowledge.None? && a.priorKnowledgePath.None?
  {
    Args(chatModelId, mode, DefaultStartIndex, DefaultEndIndex, None, None)
  }

  /** Start-up failures; each aborts before the first question. */
  datatype ConfigError =
    | UnreadablePriorKnowledge(path: string)   // `open` raises on a missing file
    | MissingPriorKnowledge                    // the ValueError for modes 2 and 3
    | InvalidMode(given: Option<string>)       // the failed membership assertion

  /** A validated configuration, as the batch loop sees it. */
  datatype Settings = Settings(
    chatModelId: string,
    mode: Mode,
    priorKnowledge: Option<string>,
    startIndex: int,
    endIndex: int,
    saveName: string)
  {
    /** Modes 2 and 3 always have prior knowledge once validated. */
    predicate Valid()
    {
      mode.NeedsPriorKnowledge() ==> priorKnowledge.Some?
    }
  }

  /** A path option counts only when it is a non-empty string (Python truthiness). */
  predicate Truthy(s: Option<string>)
  {
    s.Some? && s.value != ""
  }

  /** The prior knowledge in force: the file's contents when a path is given,
      otherwise the literal option. `files` maps readable paths to contents. */
  function ResolvePriorKnowledge(literal: Option<string>, path: Option<string>, files: map<string, string>)
    : (r: Result<Option<string>, ConfigError>)
    ensures !Truthy(path) ==> r == Ok(literal)
    ensures Truthy(path) && path.value in files ==> r == Ok(Some(files[path.value]))
    ensures Truthy(path) && path.value !in files ==> r == Err(UnreadablePriorKnowledge(path.value))
  {
    if Truthy(path) then
      if path.value in files then Ok(Some(files[path.value]))
      else Err(UnreadablePriorKnowledge(path.value))
    else Ok(literal)
  }

  /** How an f-string renders the optional `--mode` value. */
  function ModeText(mode: Option<string>): string
  {
    match mode
    case Some(v) => v
    case None => "None"
  }

  /** The output file name: the model id with every "-" turned into "_",
      then the mode and the start timestamp (nanoseconds). */
  function SaveName(chatModelId: string, mode: Option<string>, timestamp: nat): (name: string)
  {
    Text.Join('_', Text.Split(chatModelId, '-')) + "_kg_rag_based_mcq_" + ModeText(mode) + "_" + Text.Decimal(timestamp) + ".csv"
  }

  /** The save name is the dash-free model id, the mode and the timestamp
      digits between fixed separators, and ends in ".csv". */
  lemma SaveNameShape(chatModelId: string, mode: Option<string>, timestamp: nat)
    ensures var name := SaveName(chatModelId, mode, timestamp);
      var head := Text.ReplaceChar(chatModelId, '-', '_') + "_kg_rag_based_mcq_" + ModeText(mode) + "_";
      && name == head + Text.Decimal(timestamp) + ".csv"
      && |name| == |chatModelId| + 18 + |ModeText(mode)| + 1 + |Text.Decimal(timestamp)| + 4
      && (forall i :: 0 <= i < |chatModelId| ==> name[i] != '-')
      && name[|name| - 4..] == ".csv"
  {
    Text.JoinSplitIsReplace(chatModelId, '-', '_');
  }

  /** Two runs of the same model and mode that start at different timestamps
      write to different files. */
  lemma SaveNameDistinguishesRuns(chatModelId: string, mode: Option<string>, t1: nat, t2: nat)
    requires t1 != t2
    ensures SaveName(chatModelId, mode, t1) != SaveName(chatModelId, mode, t2)
  {
    var n1 := SaveName(chatModelId, mode, t1);
    var n2 := SaveName(chatModelId, mode, t2);
    var head := Text.Join('_', Text.Split(chatModelId, '-')) + "_kg_rag_based_mcq_" + ModeText(mode) + "_";
    var d1 := Text.Decimal(t1);
    var d2 := Text.Decimal(t2);
    assert n1 == head + d1 + ".csv";
    assert n2 == head + d2 + ".csv";
    if n1 == n2 {
      assert |d1| == |d2|;
      assert d1 == n1[|head|..|head| + |d1|];
      assert d2 == n2[|head|..|head| + |d2|];
      Text.DecimalInjective(t1, t2);
    }
  }

  /** Start-up as the script runs it: read the prior-knowledge file, build the
      save name, refuse modes 2/3 without prior knowledge, then refuse any mode
      outside "0".."4". The first failing step decides the error. */
  function Validate(args: Args, files: map<string, string>, timestamp: nat): (r: Result<Settings, ConfigError>)
    ensures r.Ok? ==> r.value.Valid()
    ensures r.Ok? <==>
      && ResolvePriorKnowledge(args.priorKnowledge, args.priorKnowledgePath, files).Ok?
      && ParseMode(args.mode).Some?
      && (ParseMode(args.mode).value.NeedsPriorKnowledge() ==>
            ResolvePriorKnowledge(args.priorKnowledge, args.priorKnowledgePath, files).value.Some?)
    ensures r.Ok? ==>
      && Some(r.value.mode) == ParseMode(args.mode)
      && Some(ModeName(r.value.mode)) == args.mode
      && Ok(r.value.priorKnowledge) == ResolvePriorKnowledge(args.priorKnowledge, args.priorKnowledgePath, files)
      && r.value.startIndex == args.startIndex
      && r.value.endIndex == args.endIndex
      && r.value.chatModelId == args.chatModelId
      && r.value.saveName == SaveName(args.chatModelId, args.mode, timestamp)
    // The prior-knowledge check comes before the membership check.
    ensures r == Err(MissingPriorKnowledge) <==>
      && ResolvePriorKnowledge(args.priorKnowledge, args.priorKnowledgePath, files) == Ok(None)
      && args.mode in {Some("2"), Some("3")}
    ensures r.Err? && r.error.InvalidMode? ==> r.error.given == args.mode && ParseMode(args.mode).None?
    // The file is opened before either check, whatever the mode.
    ensures ResolvePriorKnowledge(args.priorKnowledge, args.priorKnowledgePath, files).Err? ==>
      r == Err(UnreadablePriorKnowledge(args.priorKnowledgePath.value))
    ensures (&& ResolvePriorKnowledge(args.priorKnowledge, args.priorKnowledgePath, files).Ok?
             && r != Err(MissingPriorKnowledge)
             && ParseMode(args.mode).None?) ==>
      r == Err(InvalidMode(args.mode))
  {
    match ResolvePriorKnowledge(args.priorKnowledge, args.priorKnowledgePath, files)
    case Err(e) => Err(e)
    case Ok(pk) =>
      var name := SaveName(args.chatModelId, args.mode, timestamp);
      if pk.None? && (args.mode == Some("2") || args.mode == Some("3")) then Err(MissingPriorKnowledge)
      else match ParseMode(args.mode)
        case None => Err(InvalidMode(args.mode))
        case Some(m) => Ok(Settings(args.chatModelId, m, pk, args.startIndex, args.endIndex, name))
  }

  /** The file's contents take precedence over a literal prior knowledge. */
  lemma PathOverridesLiteral(args: Args, files: map<string, string>, timestamp: nat)
    requires Truthy(args.priorKnowledgePath) && args.priorKnowledgePath.value in files
    requires ParseMode(args.mode).Some?
    ensures Validate(args, files, timestamp).Ok?
    ensures Validate(args, files, timestamp).value.priorKnowledge == Some(files[args.priorKnowledgePath.value])
  {
  }

  /** An empty path is ignored like an absent one, but an empty literal is
      prior knowledge all the same: the check is for absence, not emptiness. */
  lemma EmptyStringsAsTheScriptTreatsThem(chatModelId: string, files: map<string, string>, timestamp: nat)
    ensures Validate(Args(chatModelId, Some("2"), 0, 306, Some(""), None), files, timestamp).Ok?
    ensures Validate(Args(chatModelId, Some("3"), 0, 306, None, Some("")), files, timestamp) == Err(MissingPriorKnowledge)
    ensures Validate(Args(chatModelId, Some("3"), 0, 306, Some(""), Some("")), files, timestamp).value.priorKnowledge == Some("")
  {
  }
}
