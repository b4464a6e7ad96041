/** The reply-to-result branches of `get_property` and `send_command`. */
module ReplyDecoding {
  import opened Values
  import opened Tables

  /** The source names the source query can report. */
  function SourceNames(): set<string>
  {
    set code | code in SOURCE_MAP && SOURCE_MAP[code].Some? :: SOURCE_MAP[code].value
  }

  /**
   * What `get_property(command)` returns for the reply `response` once the
   * request was sent. An empty reply gives `False`; only the power query can
   * give "on" or "off" and only the source query a source name; every reply
   * that matches no branch falls off the end of the function and gives `None`.
   */
  function DecodeProperty(command: string, response: string): (r: PyValue)
    ensures r == PyFalse <==> response == ""
    ensures r.PyStr? ==>
      (command == POWER && |response| == 3 && (r.s == "on" || r.s == "off")) ||
      (command == SOURCE && |response| == 4 && r.s in SourceNames())
    ensures response != "" && command != POWER && command != SOURCE ==> r == PyNone
  {
    if response == "" then PyFalse
    else if command == POWER && |response| == 3 && response[2] == '1' then PyStr("on")
    else if command == POWER && |response| == 3 && response[2] == '0' then PyStr("off")
    else if command == SOURCE && |response| == 4 then
      if response in SOURCE_MAP && SOURCE_MAP[response].Some? then PyStr(SOURCE_MAP[response].value)
      else PyNone
    else PyNone
  }

  /** The power query reports "on" or "off" exactly from the third character of a 3-character reply. */
  lemma PowerReply(response: string)
    ensures DecodeProperty(POWER, response) == PyStr("on") <==> |response| == 3 && response[2] == '1'
    ensures DecodeProperty(POWER, response) == PyStr("off") <==> |response| == 3 && response[2] == '0'
  {
  }

  /** The source query is the table lookup of a 4-character reply; a miss is `None`. */
  lemma SourceReply(response: string)
    requires |response| == 4
    ensures response in SOURCE_MAP && SOURCE_MAP[response].Some? ==>
      DecodeProperty(SOURCE, response) == PyStr(SOURCE_MAP[response].value)
    ensures response !in SOURCE_MAP ==> DecodeProperty(SOURCE, response) == PyNone
  {
  }

  /** Concrete replies: "OK1" is on, "OK0" is off, "OK07" is HDMI1, "OK99" and "OK00" are `None`. */
  lemma ExampleReplies()
    ensures DecodeProperty(POWER, "OK1") == PyStr("on")
    ensures DecodeProperty(POWER, "OK0") == PyStr("off")
    ensures DecodeProperty(POWER, "OK10") == PyNone
    ensures DecodeProperty(SOURCE, "OK07") == PyStr("HDMI1")
    ensures DecodeProperty(SOURCE, "OK99") == PyNone
    ensures DecodeProperty(SOURCE, "OK00") == PyNone
  {
  }

  /** Every selectable source is reported under its own name by some reply to the source query. */
  lemma {:induction false} SelectableSourcesDecode(name: string)
    requires name in SOURCE_LIST
    ensures exists response :: DecodeProperty(SOURCE, response) == PyStr(name)
  {
    SelectableSourcesAreReported(name);
    var code :| code in SOURCE_MAP && SOURCE_MAP[code] == Some(SOURCE_LIST[name]);
    assert |code| == 4;
    assert DecodeProperty(SOURCE, code) == PyStr(name);
  }

  /**
   * What `send_command` returns for the acknowledgement `result`:
   * 'OK' for "P", 'BUSY' for "F", and `None` for anything else.
   */
  function DecodeAck(result: string): (r: PyValue)
    ensures r == PyStr("OK") <==> result == "P"
    ensures r == PyStr(BUSY) <==> result == "F"
    ensures result != "P" && result != "F" ==> r == PyNone
  {
    if result == "P" then PyStr("OK")
    else if result == "F" then PyStr(BUSY)
    else PyNone
  }
}
