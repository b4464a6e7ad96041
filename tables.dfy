/** The constant tables of the projector client and `__get_timeout`. */
module Tables {
  import opened Values

  const TURN_ON: string := "TURN_ON"
  const TURN_OFF: string := "TURN_OFF"
  const POWER: string := "PWR"
  const SOURCE: string := "SOURCE"
  const BUSY: string := "BUSY"

  /** The generic lock class, the key the timeout table holds for every other command. */
  const ALL: string := "ALL"

  /** Command name to the wire frame written to the serial port. */
  const OPTOMA_COMMANDS: map<string, string> := map[
    "TURN_ON" := "~0000 1\r",
    "TURN_OFF" := "~0000 0\r",
    "PWR" := "~00124 1\r",
    "SOURCE" := "~00121 1\r",
    "DISPLAY_MODE" := "~00123 1\r",
    "HDMI1" := "~0012 1\r",
    "HDMI2" := "~0012 15\r",
    "VGA" := "~0012 8\r",
    "COMPONENT" := "~0012 14\r",
    "VIDEO" := "~0012 10\r",
    "3D_OFF" := "~00405 0\r",
    "3D_SBS" := "~00405 1\r",
    "3D_TTB" := "~00405 3\r",
    "3D_SEQ" := "~00405 4\r"
  ]

  /** The source-selection commands. */
  const SOURCE_LIST: map<string, string> := map[
    "HDMI1" := "HDMI1",
    "HDMI2" := "HDMI2",
    "VGA" := "VGA",
    "COMPONENT" := "COMPONENT",
    "VIDEO" := "VIDEO"
  ]

  /** Lock class to busy window, in seconds. */
  const TIMEOUT_TIMES: map<string, nat> := map[
    "TURN_ON" := 40,
    "TURN_OFF" := 60,
    "SOURCE" := 2,
    "ALL" := 2
  ]

  /** Reply to the source query to the source name; "OK00" means no source. */
  const SOURCE_MAP: map<string, Option<string>> := map[
    "OK00" := None,
    "OK02" := Some("VGA"),
    "OK05" := Some("VIDEO"),
    "OK07" := Some("HDMI1"),
    "OK08" := Some("HDMI2"),
    "OK11" := Some("COMPONENT")
  ]

  /**
   * `__get_timeout`: the busy window for a command name. Only the two power
   * commands have windows of their own; every other name gets two seconds.
   */
  function GetTimeout(command: string): (t: nat)
    ensures t == 40 <==> command == TURN_ON
    ensures t == 60 <==> command == TURN_OFF
    ensures t == 2 <==> command != TURN_ON && command != TURN_OFF
  {
    if command in TIMEOUT_TIMES then TIMEOUT_TIMES[command] else TIMEOUT_TIMES[ALL]
  }

  /** Every source that can be selected can also be reported by the source query. */
  lemma SelectableSourcesAreReported(name: string)
    requires name in SOURCE_LIST
    ensures exists code :: code in SOURCE_MAP && SOURCE_MAP[code] == Some(SOURCE_LIST[name])
  {
    var code :=
      if name == "VGA" then "OK02"
      else if name == "VIDEO" then "OK05"
      else if name == "HDMI1" then "OK07"
      else if name == "HDMI2" then "OK08"
      else "OK11";
    assert code in SOURCE_MAP && SOURCE_MAP[code] == Some(SOURCE_LIST[name]);
  }

  /** Every command with a lock class of its own, and every selectable source, has a wire frame. */
  lemma ClassifiedCommandsHaveFrames(command: string)
    requires command == TURN_ON || command == TURN_OFF || command in SOURCE_LIST
    ensures command in OPTOMA_COMMANDS
  {
  }

  /**
   * The command table also holds commands outside the power and source
   * classes: the display-mode query and the 3D modes.
   */
  lemma GenericCommandsHaveFrames()
    ensures forall command :: command in ["DISPLAY_MODE", "3D_OFF", "3D_SBS", "3D_TTB", "3D_SEQ"] ==>
      command in OPTOMA_COMMANDS && command != TURN_ON && command != TURN_OFF && command !in SOURCE_LIST
  {
  }
}
