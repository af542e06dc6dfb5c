/** Error lines as the tick and the semantic router write them, and what readers of lines find in
    one: the error type, and the message. */
module ErrorLines {
  import opened Options
  import opened Text
  import opened TurtleText
  import Dispatch

  function ErrorLine(message: string): string {
    "[] a antenna:Error ; " + Field("antenna:message", message) + " ."
  }

  /** An error line reads as an error with its escaped message. */
  lemma ErrorRead(message: string)
    requires message != ""
    ensures Dispatch.TypeOf(ErrorLine(message)) == Some("http://resonator.network/v2/antenna#" + "Error")
    ensures PropertyOf(ErrorLine(message), "antenna:message") == Some(Escaped(message))
  {
    Dispatch.Regroup("[] a antenna:Error ; ", Field("antenna:message", message), " .");
    ErrorTypeRead(Field("antenna:message", message) + " .");
    MessageRead(message);
  }

  lemma MessageRead(message: string)
    requires message != ""
    ensures PropertyOf(ErrorLine(message), "antenna:message") == Some(Escaped(message))
  {
    NameNotInStart(Field("antenna:message", message), " .");
    PrintThenScan("[] a antenna:Error ; ", "antenna:message", message, " .");
  }

  lemma NameNotInStart(field: string, end: string)
    requires "antenna:message" <= field
    ensures forall j: nat | j < |"[] a antenna:Error ; "| ::
              !OccursAt("[] a antenna:Error ; " + field + end, "antenna:message" + " ", j)
  {
    NotInStart(field + end);
    Dispatch.Regroup("[] a antenna:Error ; ", field, end);
  }

  lemma ErrorTypeRead(rest: string)
    ensures Dispatch.TypeOf("[] a antenna:Error ; " + rest) == Some("http://resonator.network/v2/antenna#" + "Error")
  {
    Dispatch.BracketsFirst();
    Dispatch.PrefixedTypeRead("[]", "antenna", "http://resonator.network/v2/antenna#", "Error", " ; " + rest);
    StartInParts();
    Dispatch.Regroup("[]" + " a " + ("antenna" + ":" + "Error"), " ; ", rest);
  }

  lemma StartInParts()
    ensures "[] a antenna:Error ; " == "[]" + " a " + ("antenna" + ":" + "Error") + " ; "
  {
  }

  lemma NotInStart(rest: string)
    requires "antenna:message" <= rest
    ensures forall j: nat | j < |"[] a antenna:Error ; "| ::
              !OccursAt("[] a antenna:Error ; " + rest, "antenna:message" + " ", j)
  {
    var start := "[] a antenna:Error ; ";
    forall j: nat | j < |start| ensures !OccursAt(start + rest, "antenna:message" + " ", j) {
      ColonAt(rest, j);
      Differs(start + rest, "antenna:message" + " ", j, if j == 5 then 8 else 7);
    }
  }

  /** The colon of the property's name stands elsewhere in what comes first. */
  lemma ColonAt(rest: string, j: nat)
    requires "antenna:message" <= rest && j < 21
    ensures var s := "[] a antenna:Error ; " + rest;
            && |"[] a antenna:Error ; "| == 21 && |s| > j + 8
            && ("antenna:message" + " ")[7] == ':' && ("antenna:message" + " ")[8] == 'm'
            && if j == 5 then s[j + 8] == 'E' else s[j + 7] != ':'
  {
    var s := "[] a antenna:Error ; " + rest;
    if j >= 14 {
      assert s[j + 7] == rest[j - 14] == "antenna:message"[j - 14];
    } else {
      assert s[j + 7] == "[] a antenna:Error ; "[j + 7];
    }
  }
}
