/** germinate/log.py: Germinate's concise log format and the set-up of
    the `germinate` logger. */
module Log {
  import opened Wrappers

  /** The standard numeric logging levels. */
  const DEBUG: int := 10
  const INFO: int := 20
  const WARNING: int := 30
  const ERROR: int := 40
  const CRITICAL: int := 50

  /** A log record: its level, its message once formatted with its
      arguments, and its `progress` attribute, which is absent unless the
      caller supplied one. The formatter only tests that attribute for
      truthiness, so `Some(true)` stands for any truthy value and
      `Some(false)` for any falsy one. */
  datatype Record = Record(levelno: int, message: string, progress: Option<bool>)

  /** The formatter's table of level prefixes. */
  function Prefixes(): map<int, string> {
    map[DEBUG := "  ", INFO := "* ", WARNING := "! ", ERROR := "? "]
  }

  /** `GerminateFormatter.format`. */
  function Format(r: Record): string {
    if r.progress == Some(true) then r.message
    else if r.levelno in Prefixes() then Prefixes()[r.levelno] + r.message
    else r.message
  }

  /** Progress records are shown bare; the four levels of the table get
      their two-character prefix and all others are shown bare, so the
      message is always the tail of the line and a prefix appears exactly
      for a non-progress record at one of those four levels. */
  lemma FormatFacts(r: Record)
    ensures r.progress == Some(true) ==> Format(r) == r.message
    ensures r.progress != Some(true) ==>
      && (r.levelno == DEBUG ==> Format(r) == "  " + r.message)
      && (r.levelno == INFO ==> Format(r) == "* " + r.message)
      && (r.levelno == WARNING ==> Format(r) == "! " + r.message)
      && (r.levelno == ERROR ==> Format(r) == "? " + r.message)
    ensures Format(r) != r.message <==>
      r.progress != Some(true) && r.levelno in {DEBUG, INFO, WARNING, ERROR}
    ensures |Format(r)| - |r.message| in {0, 2} && Format(r)[|Format(r)| - |r.message|..] == r.message
  {
    if r.progress != Some(true) && r.levelno in Prefixes() {
      var p := Prefixes()[r.levelno];
      assert |p| == 2;
      assert Format(r) == p + r.message;
      assert (p + r.message)[2..] == r.message;
    }
  }

  /** A CRITICAL record, and any other level outside the table, is shown
      as its bare message. */
  lemma UnlistedLevelsBare(r: Record)
    requires r.levelno !in {DEBUG, INFO, WARNING, ERROR}
    ensures Format(r) == r.message
  {
  }

  datatype Stream = Stdout | Stderr

  /** A handler attached to the logger: the stream it writes to and
      whether it uses Germinate's formatter. */
  datatype Handler = StreamHandler(stream: Stream, germinateFormat: bool)

  /** The parts of a logger that `germinate_logging` sets. */
  datatype LoggerState = LoggerState(level: int, handlers: seq<Handler>, propagate: bool)

  /** The effect of `germinate_logging(level)` on the `germinate` logger. */
  function Configured(s: LoggerState, level: int): LoggerState {
    if s.handlers == [] then LoggerState(level, [StreamHandler(Stdout, true)], false) else s
  }

  /** Setting up twice is setting up once: the second call neither adds a
      handler nor resets the level, whatever level it asks for. */
  lemma ConfiguredIdempotent(s: LoggerState, first: int, second: int)
    ensures Configured(Configured(s, first), second) == Configured(s, first)
    ensures |Configured(s, first).handlers| >= 1
    ensures s.handlers == [] ==> Configured(s, first).level == first && !Configured(s, first).propagate
  {
  }

  /** The `germinate` logger. */
  class Logger {
    var level: int
    var handlers: seq<Handler>
    var propagate: bool

    /** A fresh logger: no level set (0, NOTSET), no handlers, and
        propagation to the root logger. */
    constructor()
      ensures level == 0 && handlers == [] && propagate
    {
      level := 0;
      handlers := [];
      propagate := true;
    }

    function State(): LoggerState
      reads this
    {
      LoggerState(level, handlers, propagate)
    }

    /** `germinate_logging`: on a logger without handlers, set the level,
        add one standard-output handler with Germinate's formatter and
        stop propagation; otherwise change nothing. */
    method GerminateLogging(newLevel: int)
      modifies this
      ensures State() == Configured(old(State()), newLevel)
      ensures old(handlers) != [] ==> level == old(level) && handlers == old(handlers) && propagate == old(propagate)
    {
      if handlers == [] {
        level := newLevel;
        handlers := handlers + [StreamHandler(Stdout, true)];
        propagate := false;
      }
    }
  }
}
