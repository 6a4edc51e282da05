/**
 * The message types shared by both room variants (src/common.rs) and the
 * level filter of the `log` helper.
 */
module Common {

  import Wrappers

  /** Rust's `u64`: timestamps carried in messages are unsigned 64-bit seconds. */
  newtype u64 = x: int | 0 <= x < 0x1_0000_0000_0000_0000

  /** One stored chat line. */
  datatype HistoryItem = HistoryItem(from: string, content: string, timestamp: u64)

  /** The four message kinds exchanged between clients and the room. */
  datatype ChatMessage =
    | Join(username: string)
    | Leave(username: string)
    | Text(from: string, content: string, timestamp: u64)
    | StateSync(history: seq<HistoryItem>, participants: seq<string>)

  /** Verbosity levels, in declaration order. */
  datatype LogLevel = None | Info | Debug | Trace

  /** The value of `level as usize`: the declaration index of the variant. */
  function Discriminant(level: LogLevel): nat
  {
    match level
    case None => 0
    case Info => 1
    case Debug => 2
    case Trace => 3
  }

  /** The text put in front of a message of the given level. */
  function Prefix(level: LogLevel): string
    requires level != None
  {
    match level
    case Info => "[INFO] "
    case Debug => "[DEBUG] "
    case Trace => "[TRACE] "
  }

  /**
   * The line `log(level, current, msg)` prints, if any. A call with level
   * `None` would always pass the level test and reach `unreachable!`, so the
   * caller must not make it.
   */
  function Log(level: LogLevel, current: LogLevel, msg: string): (line: Wrappers.Option<string>)
    requires level != None
    ensures line.Some? <==> Discriminant(level) <= Discriminant(current)
    ensures line.Some? ==> |line.value| > |msg| && line.value[|line.value| - |msg|..] == msg
  {
    if Discriminant(level) <= Discriminant(current) then Wrappers.Some(Prefix(level) + msg)
    else Wrappers.None
  }

  /** The three lines `log` prints: the bracketed level name, a space, then the message. */
  lemma LogLines(current: LogLevel, msg: string)
    ensures Log(Info, current, msg).Some? ==> Log(Info, current, msg).value == "[INFO] " + msg
    ensures Log(Debug, current, msg).Some? ==> Log(Debug, current, msg).value == "[DEBUG] " + msg
    ensures Log(Trace, current, msg).Some? ==> Log(Trace, current, msg).value == "[TRACE] " + msg
  {
  }

  /** The discriminant orders the levels strictly: distinct levels get distinct values. */
  lemma DiscriminantInjective(a: LogLevel, b: LogLevel)
    ensures Discriminant(a) == Discriminant(b) <==> a == b
  {
  }

  /** With verbosity `None`, no Info, Debug or Trace line is ever printed. */
  lemma SilentAtNone(level: LogLevel, msg: string)
    requires level != None
    ensures Log(level, None, msg) == Wrappers.None
  {
  }

  /** A line printed at some verbosity is also printed at every higher verbosity. */
  lemma LogMonotone(level: LogLevel, current: LogLevel, higher: LogLevel, msg: string)
    requires level != None
    requires Log(level, current, msg).Some?
    requires Discriminant(current) <= Discriminant(higher)
    ensures Log(level, higher, msg) == Log(level, current, msg)
  {
  }

  /** At verbosity Trace every level prints; at Info only Info prints. */
  lemma LogLevelsPrinted(level: LogLevel, msg: string)
    requires level != None
    ensures Log(level, Trace, msg).Some?
    ensures Log(level, Info, msg).Some? <==> level == Info
  {
  }

  /** `None` passes the level test for every verbosity, which is why logging at it is unreachable. */
  lemma NonePassesEveryFilter(current: LogLevel)
    ensures Discriminant(None) <= Discriminant(current)
  {
  }

  /** The printed line determines the level it was printed at. */
  lemma PrefixIdentifiesLevel(a: LogLevel, b: LogLevel, msg: string)
    requires a != None && b != None
    requires Log(a, Trace, msg) == Log(b, Trace, msg)
    ensures a == b
  {
    var la, lb := Prefix(a) + msg, Prefix(b) + msg;
    assert la[1] == Prefix(a)[1] && lb[1] == Prefix(b)[1];
  }
}
