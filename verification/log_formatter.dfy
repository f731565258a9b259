/** The bridge from a policy's severity level to a record's log type. */
module LogFormatter {
  import LM = LogMessages

  datatype SeverityLvl = Critical | Warning | Info

  function MapToLogType(level: SeverityLvl): (t: LM.LogType)
    ensures level == Critical <==> t == LM.Error
    ensures level == Warning <==> t == LM.Warning
    ensures level == Info <==> t == LM.Info
  {
    match level
    case Critical => LM.Error
    case Warning => LM.Warning
    case _ => LM.Info
  }

  /** The level a log type comes from. */
  function LevelOf(t: LM.LogType): (level: SeverityLvl)
    ensures MapToLogType(level) == t
  {
    match t
    case Error => Critical
    case Warning => Warning
    case Info => Info
  }

  /** `MapToLogType` and `LevelOf` are inverse to each other, so the mapping is a bijection. */
  lemma MapToLogTypeBijective(level: SeverityLvl, t: LM.LogType)
    ensures LevelOf(MapToLogType(level)) == level
    ensures MapToLogType(level) == t <==> level == LevelOf(t)
  {
  }

  /** Every policy level renders as a known severity name. */
  lemma MappedNameKnown(level: SeverityLvl)
    ensures LM.LogTypeToString(MapToLogType(level)) != "UNKNOWN"
    ensures LM.LogTypeToString(MapToLogType(level)) == (match level
                                                        case Critical => "ERROR"
                                                        case Warning => "WARNING"
                                                        case Info => "INFO")
  {
  }
}
