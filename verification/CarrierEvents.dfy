/** Carrier events as Turtle lines (`carrier.rs`): a header with the event's class and account,
    fields, a timestamp. What the tick's text test for an account-ready event finds in them. */
module CarrierEvents {
  import opened Options
  import opened Text
  import opened TurtleText
  import Calendar
  import CalendarText
  import Dispatch

  // ----- events and their lines -----

  datatype Class =
    | Connected | Disconnected | AccountReady | AccountError | AccountArchiveReady | SelfId
    | TrustRequest | ContactOnline | ContactOffline | ContactName | ContactRestored | TextMessage
    | MessageSent | GroupMessage | GroupPeerJoin | GroupPeerExit | ConversationRequest
    | ConversationReady | SavedConversation | ConversationSyncFinished | SwarmCommit | Reaction
    | Presence | FileRecv | FileProgress | FileComplete | DeviceLinkPin | DeviceLinked
    | DeviceUnlinked | CarrierError | System

  function ClassText(c: Class): string {
    match c
    case Connected => "Connected"
    case Disconnected => "Disconnected"
    case AccountReady => "AccountReady"
    case AccountError => "AccountError"
    case AccountArchiveReady => "AccountArchiveReady"
    case SelfId => "SelfId"
    case TrustRequest => "TrustRequest"
    case ContactOnline => "ContactOnline"
    case ContactOffline => "ContactOffline"
    case ContactName => "ContactName"
    case ContactRestored => "ContactRestored"
    case TextMessage => "TextMessage"
    case MessageSent => "MessageSent"
    case GroupMessage => "GroupMessage"
    case GroupPeerJoin => "GroupPeerJoin"
    case GroupPeerExit => "GroupPeerExit"
    case ConversationRequest => "ConversationRequest"
    case ConversationReady => "ConversationReady"
    case SavedConversation => "SavedConversation"
    case ConversationSyncFinished => "ConversationSyncFinished"
    case SwarmCommit => "SwarmCommit"
    case Reaction => "Reaction"
    case Presence => "Presence"
    case FileRecv => "FileRecv"
    case FileProgress => "FileProgress"
    case FileComplete => "FileComplete"
    case DeviceLinkPin => "DeviceLinkPin"
    case DeviceLinked => "DeviceLinked"
    case DeviceUnlinked => "DeviceUnlinked"
    case CarrierError => "Error"
    case System => "System"
  }

  datatype Name =
    | SelfUri | DisplayName | Cause | Path | ContactUri | Payload | Blocked | ConversationId
    | MessageId | Text | Status | MemberUri | ReactionText | ReactionId | FileId | Filename | Size
    | Pin | Command | ClassName | Message

  function NameText(n: Name): string {
    match n
    case SelfUri => "selfUri"
    case DisplayName => "displayName"
    case Cause => "cause"
    case Path => "path"
    case ContactUri => "contactUri"
    case Payload => "payload"
    case Blocked => "blocked"
    case ConversationId => "conversationId"
    case MessageId => "messageId"
    case Text => "text"
    case Status => "status"
    case MemberUri => "memberUri"
    case ReactionText => "reaction"
    case ReactionId => "reactionId"
    case FileId => "fileId"
    case Filename => "filename"
    case Size => "size"
    case Pin => "pin"
    case Command => "command"
    case ClassName => "class"
    case Message => "message"
  }

  datatype Field = Quoted(name: Name, value: string) | Bare(name: Name, number: int)

  /** An event: which fields it has, and in what order, is up to its class and data. */
  datatype Event = Event(class_: Class, accountBuf: string, fields: seq<Field>, atMs: int)

  function AccountOf(e: Event): string {
    CStrFromBuf(e.accountBuf)
  }

  function Decimal(n: int): string {
    if n < 0 then "-" + Digits(-n) else Digits(n)
  }

  function FieldText(f: Field): string {
    match f
    case Quoted(name, value) => " ; " + TurtleText.Field("carrier:" + NameText(name), value)
    case Bare(name, number) => " ; " + ("carrier:" + NameText(name)) + " " + Decimal(number)
  }

  function FieldsText(fs: seq<Field>): string {
    if fs == [] then "" else FieldText(fs[0]) + FieldsText(fs[1..])
  }

  function TimeText(atMs: int): string {
    " ; carrier:at \"" + Calendar.Render(Calendar.Fields(Calendar.TruncDiv(atMs, 1000))) + "\"^^xsd:dateTime"
  }

  /** `event_to_turtle`. */
  function Print(e: Event): string {
    Header(ClassText(e.class_), e.accountBuf) + (FieldsText(e.fields) + (TimeText(e.atMs) + " ."))
  }

  function Optional(name: Name, value: string): seq<Field> {
    if value == "" then [] else [Quoted(name, value)]
  }

  function AccountReadyEvent(accountBuf: string, selfUriBuf: string, nameBuf: string, atMs: int): Event {
    Event(AccountReady, accountBuf,
          [Quoted(SelfUri, CStrFromBuf(selfUriBuf))] + Optional(DisplayName, CStrFromBuf(nameBuf)), atMs)
  }

  function TextMessageEvent(accountBuf: string, contactBuf: string, conversationBuf: string, messageBuf: string,
                            body: string, atMs: int): Event {
    Event(TextMessage, accountBuf,
          [Quoted(ContactUri, CStrFromBuf(contactBuf)), Quoted(ConversationId, CStrFromBuf(conversationBuf)),
           Quoted(MessageId, CStrFromBuf(messageBuf)), Quoted(Text, body)], atMs)
  }

  // ----- the text test for account-ready events -----

  const READY_MARK: string := "carrier:AccountReady"

  predicate IsMarked(e: Event) {
    Contains(Print(e), READY_MARK)
  }

  predicate HoldsMark(f: Field) {
    f.Quoted? && Contains(f.value, READY_MARK)
  }

  /** The mark stands in the account or in a field's value, as sent: a peer chooses some of
      these. */
  ghost predicate CarriesMark(e: Event) {
    Contains(AccountOf(e), READY_MARK) || SomeHoldsMark(e.fields)
  }

  ghost predicate SomeHoldsMark(fs: seq<Field>) {
    exists i :: 0 <= i < |fs| && HoldsMark(fs[i])
  }

  lemma SomeHoldsMarkCons(fs: seq<Field>)
    requires fs != []
    ensures SomeHoldsMark(fs) <==> HoldsMark(fs[0]) || SomeHoldsMark(fs[1..])
  {
    if SomeHoldsMark(fs) {
      var i :| 0 <= i < |fs| && HoldsMark(fs[i]);
      assert i > 0 ==> fs[1..][i - 1] == fs[i];
    }
    if SomeHoldsMark(fs[1..]) {
      var i :| 0 <= i < |fs| - 1 && HoldsMark(fs[1..][i]);
      assert fs[i + 1] == fs[1..][i];
    }
  }

  predicate IsLetters(s: string) {
    s != "" && forall i | 0 <= i < |s| :: 'A' <= s[i] <= 'Z' || 'a' <= s[i] <= 'z'
  }

  /** A pattern of which no character is escaped and no escape sequence ends in its start. */
  predicate IsPlainPattern(pat: string) {
    && pat != "" && pat[0] != 'n' && pat[0] != 'r'
    && forall i | 0 <= i < |pat| :: !NeedsEscape(pat[i])
  }

  lemma {:induction false} EscapedStart(v: string, pat: string)
    requires forall i | 0 <= i < |pat| :: !NeedsEscape(pat[i])
    ensures pat <= Escaped(v) <==> pat <= v
  {
    if pat != "" && v != "" {
      var e := EscapeChar(v[0]);
      assert Escaped(v) == e + Escaped(v[1..]);
      if NeedsEscape(v[0]) {
        assert Escaped(v)[0] == '\\';
      } else {
        EscapedStart(v[1..], pat[1..]);
        StartsCons(pat, Escaped(v));
        StartsCons(pat, v);
        assert Escaped(v)[1..] == Escaped(v[1..]);
      }
    }
  }

  lemma StartsCons(pat: string, s: string)
    requires pat != "" && s != ""
    ensures pat <= s <==> pat[0] == s[0] && pat[1..] <= s[1..]
  {
    if pat[0] == s[0] && pat[1..] <= s[1..] {
      assert pat == [pat[0]] + pat[1..] && s == [s[0]] + s[1..];
    }
  }

  /** Escaping neither makes nor breaks an occurrence of a plain pattern. */
  lemma {:induction false} EscapedContainsIff(v: string, pat: string)
    requires IsPlainPattern(pat)
    ensures Contains(Escaped(v), pat) <==> Contains(v, pat)
  {
    if v != "" {
      EscapedContainsIff(v[1..], pat);
      if NeedsEscape(v[0]) { EscapeSkipped(v, pat); } else { PlainKept(v, pat); }
    }
  }

  lemma EscapeSkipped(v: string, pat: string)
    requires IsPlainPattern(pat) && v != "" && NeedsEscape(v[0])
    ensures Contains(Escaped(v), pat) <==> Contains(Escaped(v[1..]), pat)
    ensures Contains(v, pat) <==> Contains(v[1..], pat)
  {
    var rest, e := Escaped(v[1..]), EscapeChar(v[0]);
    TwoFirst(e, rest);
    assert v == [v[0]] + v[1..] && Escaped(v) == e + rest;
    NotAtStart(v[0], v[1..], pat);
    NotAtStart(e[0], [e[1]] + rest, pat);
    NotAtStart(e[1], rest, pat);
  }

  lemma TwoFirst(e: string, rest: string)
    requires |e| == 2
    ensures e + rest == [e[0]] + ([e[1]] + rest)
  {
  }

  lemma NotAtStart(c: char, s: string, pat: string)
    requires pat != "" && pat[0] != c
    ensures Contains([c] + s, pat) <==> Contains(s, pat)
  {
    ContainsCons(c, s, pat);
    StartsCons(pat, [c] + s);
  }

  lemma PlainKept(v: string, pat: string)
    requires IsPlainPattern(pat) && v != "" && !NeedsEscape(v[0])
    requires Contains(Escaped(v[1..]), pat) <==> Contains(v[1..], pat)
    ensures Contains(Escaped(v), pat) <==> Contains(v, pat)
  {
    EscapedStart(v, pat);
    assert v == [v[0]] + v[1..] && Escaped(v) == [v[0]] + Escaped(v[1..]);
    ContainsCons(v[0], v[1..], pat);
    ContainsCons(v[0], Escaped(v[1..]), pat);
  }

  lemma MarkIsPlain()
    ensures IsPlainPattern(READY_MARK)
    ensures forall i | 0 <= i < |READY_MARK| :: READY_MARK[i] != ' ' && READY_MARK[i] != '"'
  {
  }

  /** Texts joined by a space or a quote. */
  lemma MarkAround(a: string, d: char, b: string)
    requires d == ' ' || d == '"'
    ensures Contains(a + [d] + b, READY_MARK) <==> Contains(a, READY_MARK) || Contains(b, READY_MARK)
  {
    MarkIsPlain();
    ContainsAround(a, d, b, READY_MARK);
  }

  lemma ShortHasNoMark(s: string)
    requires |s| < 20
    ensures !Contains(s, READY_MARK)
  {
    assert |READY_MARK| == 20;
  }

  /** In front of what follows, the quoted value of a field. */
  lemma MarkInQuoted(v: string, rest: string)
    ensures Contains("\"" + Escaped(v) + "\"" + rest, READY_MARK) <==>
            Contains(v, READY_MARK) || Contains(rest, READY_MARK)
  {
    MarkIsPlain();
    EscapedContainsIff(v, READY_MARK);
    ShortHasNoMark("");
    MarkAround("", '"', Escaped(v) + ['"'] + rest);
    MarkAround(Escaped(v), '"', rest);
    assert "\"" + Escaped(v) + "\"" + rest == "" + ['"'] + (Escaped(v) + ['"'] + rest);
  }

  lemma MarkAfterSeparator(rest: string)
    ensures Contains(" ; " + rest, READY_MARK) <==> Contains(rest, READY_MARK)
  {
    ShortHasNoMark("");
    ShortHasNoMark(";");
    MarkAround(";", ' ', rest);
    MarkAround("", ' ', ";" + [' '] + rest);
    assert " ; " + rest == "" + [' '] + (";" + [' '] + rest);
  }

  /** A prefixed name holds the mark only at its start. */
  lemma MarkInName(local: string)
    requires IsLetters(local)
    ensures Contains("carrier:" + local, READY_MARK) <==> "AccountReady" <= local
  {
    var s := "carrier:" + local;
    assert READY_MARK == "carrier:" + "AccountReady";
    forall j: nat | j + 20 <= |s| ensures OccursAt(s, READY_MARK, j) <==> j == 0 && "AccountReady" <= local {
      var w := s[j..j + 20];
      assert w[7] == s[j + 7];
      if j == 0 {
        assert w == "carrier:" + local[..12];
        assert w[8..] == local[..12] && READY_MARK[8..] == "AccountReady";
      } else {
        assert s[j + 7] == local[j - 1] != ':';
      }
    }
    if "AccountReady" <= local { OccursMeansContains(s, READY_MARK, 0); }
  }

  /** A property name, a space and what follows: the name has no mark. */
  lemma MarkInProperty(prop: string, v: string, rest: string)
    requires !Contains(prop, READY_MARK)
    ensures Contains(TurtleText.Field(prop, v) + rest, READY_MARK) <==>
            Contains(v, READY_MARK) || Contains(rest, READY_MARK)
  {
    var value := "\"" + Escaped(v) + "\"" + rest;
    MarkAround(prop, ' ', value);
    MarkInQuoted(v, rest);
    Regroup(prop, Escaped(v), rest);
  }

  lemma Regroup(prop: string, body: string, rest: string)
    ensures prop + " " + "\"" + body + "\"" + rest == prop + [' '] + ("\"" + body + "\"" + rest)
  {
  }

  // ----- the names in events -----

  predicate StartsLower(s: string) {
    s != "" && 'a' <= s[0] <= 'z'
  }

  lemma NamesAreLetters1(n: Name)
    requires n.SelfUri? || n.DisplayName? || n.Cause? || n.Path? || n.ContactUri? || n.Payload? || n.Blocked?
    ensures IsLetters(NameText(n)) && StartsLower(NameText(n))
  {
  }

  lemma NamesAreLetters2(n: Name)
    requires n.ConversationId? || n.MessageId? || n.Text? || n.Status? || n.MemberUri? || n.ReactionText?
             || n.ReactionId?
    ensures IsLetters(NameText(n)) && StartsLower(NameText(n))
  {
  }

  lemma NamesAreLetters3(n: Name)
    requires n.FileId? || n.Filename? || n.Size? || n.Pin? || n.Command? || n.ClassName? || n.Message?
    ensures IsLetters(NameText(n)) && StartsLower(NameText(n))
  {
  }

  lemma NamesAreLetters(n: Name)
    ensures IsLetters(NameText(n)) && StartsLower(NameText(n))
  {
    match n
    case SelfUri | DisplayName | Cause | Path | ContactUri | Payload | Blocked => NamesAreLetters1(n);
    case ConversationId | MessageId | Text | Status | MemberUri | ReactionText | ReactionId => NamesAreLetters2(n);
    case _ => NamesAreLetters3(n);
  }

  lemma NameHasNoMark(n: Name)
    ensures !Contains("carrier:" + NameText(n), READY_MARK)
  {
    NamesAreLetters(n);
    MarkInName(NameText(n));
    LowerIsNotReady(NameText(n));
  }

  lemma LowerIsNotReady(s: string)
    requires StartsLower(s)
    ensures !("AccountReady" <= s)
  {
    if |s| >= 12 { assert s[..12][0] == s[0]; }
  }

  predicate StartsUpper(s: string) {
    s != "" && 'A' <= s[0] <= 'Z'
  }

  lemma ClassesAreLetters1(c: Class)
    requires c.Connected? || c.Disconnected? || c.AccountReady? || c.AccountError? || c.AccountArchiveReady?
             || c.SelfId? || c.TrustRequest? || c.ContactOnline?
    ensures IsLetters(ClassText(c)) && StartsUpper(ClassText(c))
    ensures "AccountReady" <= ClassText(c) <==> c == AccountReady
  {
    if c.AccountError? {
      assert |ClassText(c)| == 12 && ClassText(c)[7] == 'E' && "AccountReady"[7] == 'R';
    } else if c.AccountArchiveReady? {
      assert ClassText(c)[7] == 'A' && "AccountReady"[7] == 'R';
    } else if !c.AccountReady? {
      OtherStart(ClassText(c));
    }
  }

  lemma OtherStart(s: string)
    requires s != "" && s[0] != 'A'
    ensures !("AccountReady" <= s)
  {
    if |s| >= 12 { assert s[..12][0] == s[0]; }
  }

  lemma ClassesAreLetters2(c: Class)
    requires c.ContactOffline? || c.ContactName? || c.ContactRestored? || c.TextMessage?
    ensures IsLetters(ClassText(c)) && StartsUpper(ClassText(c)) && ClassText(c)[0] != 'A'
  {
  }

  lemma ClassesAreLetters3(c: Class)
    requires c.MessageSent? || c.GroupMessage? || c.GroupPeerJoin? || c.GroupPeerExit?
    ensures IsLetters(ClassText(c)) && StartsUpper(ClassText(c)) && ClassText(c)[0] != 'A'
  {
  }

  lemma ClassesAreLetters4(c: Class)
    requires c.ConversationRequest? || c.ConversationReady? || c.SavedConversation?
    ensures IsLetters(ClassText(c)) && StartsUpper(ClassText(c)) && ClassText(c)[0] != 'A'
  {
  }

  lemma ClassesAreLetters5(c: Class)
    requires c.ConversationSyncFinished? || c.SwarmCommit? || c.Reaction? || c.Presence?
    ensures IsLetters(ClassText(c)) && StartsUpper(ClassText(c)) && ClassText(c)[0] != 'A'
  {
  }

  lemma ClassesAreLetters6(c: Class)
    requires c.FileRecv? || c.FileProgress? || c.FileComplete? || c.CarrierError?
    ensures IsLetters(ClassText(c)) && StartsUpper(ClassText(c)) && ClassText(c)[0] != 'A'
  {
  }

  lemma ClassesAreLetters7(c: Class)
    requires c.DeviceLinkPin? || c.DeviceLinked? || c.DeviceUnlinked? || c.System?
    ensures IsLetters(ClassText(c)) && StartsUpper(ClassText(c)) && ClassText(c)[0] != 'A'
  {
  }

  lemma OtherClasses(c: Class)
    requires !c.Connected? && !c.Disconnected? && !c.AccountReady? && !c.AccountError? && !c.AccountArchiveReady?
             && !c.SelfId? && !c.TrustRequest? && !c.ContactOnline?
    ensures IsLetters(ClassText(c)) && StartsUpper(ClassText(c)) && ClassText(c)[0] != 'A'
  {
    match c
    case ContactOffline | ContactName | ContactRestored | TextMessage => ClassesAreLetters2(c);
    case MessageSent | GroupMessage | GroupPeerJoin | GroupPeerExit => ClassesAreLetters3(c);
    case ConversationRequest | ConversationReady | SavedConversation => ClassesAreLetters4(c);
    case ConversationSyncFinished | SwarmCommit | Reaction | Presence => ClassesAreLetters5(c);
    case FileRecv | FileProgress | FileComplete | CarrierError => ClassesAreLetters6(c);
    case _ => ClassesAreLetters7(c);
  }

  lemma ClassesAreLetters(c: Class)
    ensures IsLetters(ClassText(c)) && StartsUpper(ClassText(c))
    ensures "AccountReady" <= ClassText(c) <==> c == AccountReady
  {
    match c {
      case Connected | Disconnected | AccountReady | AccountError | AccountArchiveReady | SelfId
         | TrustRequest | ContactOnline =>
        ClassesAreLetters1(c);
      case _ =>
        OtherClasses(c);
        OtherStart(ClassText(c));
    }
  }

  // ----- which events pass the test -----

  lemma DecimalHasNoMark(n: int)
    ensures !Contains(Decimal(n), READY_MARK)
  {
    if n < 0 {
      NumberOfDigits(-n);
      NumeralHasNoMark("-", Digits(-n));
    } else {
      NumberOfDigits(n);
      NumeralHasNoMark("", Digits(n));
      assert "" + Digits(n) == Digits(n);
    }
  }

  lemma NumeralHasNoMark(sign: string, digits: string)
    requires IsNumeral(digits) && (sign == "" || sign == "-")
    ensures !Contains(sign + digits, READY_MARK)
  {
    var s := sign + digits;
    assert forall i | 0 <= i < |s| :: s[i] != 'c';
    LacksFirst(s, READY_MARK);
  }

  lemma MarkInQuotedField(prop: string, value: string, tail: string)
    requires !Contains(prop, READY_MARK)
    ensures Contains(" ; " + TurtleText.Field(prop, value) + tail, READY_MARK) <==>
            Contains(value, READY_MARK) || Contains(tail, READY_MARK)
  {
    var field := TurtleText.Field(prop, value);
    MarkInProperty(prop, value, tail);
    MarkAfterSeparator(field + tail);
    assert " ; " + field + tail == " ; " + (field + tail);
  }

  lemma MarkInBareField(prop: string, number: string, rest: string)
    requires !Contains(prop, READY_MARK) && !Contains(number, READY_MARK)
    ensures Contains(" ; " + prop + " " + number + ([' '] + rest), READY_MARK) <==> Contains(rest, READY_MARK)
  {
    MarkAround(number, ' ', rest);
    MarkAround(prop, ' ', number + [' '] + rest);
    MarkAfterSeparator(prop + [' '] + (number + [' '] + rest));
    RegroupBare(prop, number, rest);
  }

  lemma MarkAfterSpace(rest: string)
    ensures Contains([' '] + rest, READY_MARK) <==> Contains(rest, READY_MARK)
  {
    ShortHasNoMark("");
    MarkAround("", ' ', rest);
    assert [' '] + rest == "" + [' '] + rest;
  }

  /** One field and what follows it, which starts with a space. */
  lemma MarkInField(f: Field, rest: string)
    ensures Contains(FieldText(f) + ([' '] + rest), READY_MARK) <==>
            HoldsMark(f) || Contains([' '] + rest, READY_MARK)
  {
    NameHasNoMark(f.name);
    var prop := "carrier:" + NameText(f.name);
    if f.Quoted? {
      MarkInQuotedField(prop, f.value, [' '] + rest);
    } else {
      DecimalHasNoMark(f.number);
      MarkAfterSpace(rest);
      MarkInBareField(prop, Decimal(f.number), rest);
    }
  }

  lemma RegroupBare(prop: string, number: string, rest: string)
    ensures " ; " + prop + " " + number + ([' '] + rest) == " ; " + (prop + [' '] + (number + [' '] + rest))
  {
  }

  lemma FieldTextStarts(f: Field)
    ensures FieldText(f) != "" && FieldText(f)[0] == ' '
  {
  }

  lemma FieldsStart(fs: seq<Field>, rest: string)
    requires rest != "" && rest[0] == ' '
    ensures FieldsText(fs) + rest != "" && (FieldsText(fs) + rest)[0] == ' '
  {
    if fs != [] { FieldTextStarts(fs[0]); }
  }

  lemma MarkBeforeSpace(f: Field, tail: string)
    requires tail != "" && tail[0] == ' '
    ensures Contains(FieldText(f) + tail, READY_MARK) <==> HoldsMark(f) || Contains(tail, READY_MARK)
  {
    SpaceFirst(tail, "");
    MarkInField(f, tail[1..]);
  }

  lemma FieldsTextCons(fs: seq<Field>, rest: string)
    requires fs != []
    ensures FieldsText(fs) + rest == FieldText(fs[0]) + (FieldsText(fs[1..]) + rest)
  {
  }

  lemma {:induction false} MarkInFields(fs: seq<Field>, rest: string)
    requires rest != "" && rest[0] == ' '
    ensures Contains(FieldsText(fs) + rest, READY_MARK) <==> SomeHoldsMark(fs) || Contains(rest, READY_MARK)
  {
    if fs == [] {
      assert FieldsText(fs) + rest == rest;
    } else {
      FieldsStart(fs[1..], rest);
      FieldsTextCons(fs, rest);
      MarkInFields(fs[1..], rest);
      SomeHoldsMarkCons(fs);
      MarkBeforeSpace(fs[0], FieldsText(fs[1..]) + rest);
    }
  }

  lemma TimeHasNoMark(atMs: int)
    ensures !Contains(TimeText(atMs) + " .", READY_MARK)
  {
    var at := Calendar.Render(Calendar.Fields(Calendar.TruncDiv(atMs, 1000)));
    CalendarText.RenderIsStampText(Calendar.Fields(Calendar.TruncDiv(atMs, 1000)));
    LacksFirst(at, READY_MARK);
    ShortHasNoMark("^^xsd:dateTime .");
    ShortHasNoMark("carrier:at");
    ShortHasNoMark("");
    MarkAround(at, '"', "^^xsd:dateTime .");
    MarkAround("", '"', at + ['"'] + "^^xsd:dateTime .");
    MarkAround("carrier:at", ' ', "" + ['"'] + (at + ['"'] + "^^xsd:dateTime ."));
    MarkAfterSeparator("carrier:at" + [' '] + ("" + ['"'] + (at + ['"'] + "^^xsd:dateTime .")));
    RegroupTime(at);
  }

  lemma RegroupTime(at: string)
    ensures " ; carrier:at \"" + at + "\"^^xsd:dateTime" + " ."
         == " ; " + ("carrier:at" + [' '] + ("" + ['"'] + (at + ['"'] + "^^xsd:dateTime .")))
  {
    assert " ; carrier:at \"" == " ; " + "carrier:at" + [' '] + "" + ['"'];
    assert "\"^^xsd:dateTime" + " ." == ['"'] + "^^xsd:dateTime .";
  }

  lemma MarkInClass(c: Class, rest: string)
    ensures Contains("[] a carrier:" + ClassText(c) + ([' '] + rest), READY_MARK) <==>
            c == AccountReady || Contains([' '] + rest, READY_MARK)
  {
    ClassesAreLetters(c);
    var name := "carrier:" + ClassText(c);
    MarkInName(ClassText(c));
    ShortHasNoMark("");
    ShortHasNoMark("a");
    ShortHasNoMark("[]");
    MarkAround("", ' ', rest);
    assert [' '] + rest == "" + [' '] + rest;
    MarkAround(name, ' ', rest);
    MarkAround("a", ' ', name + [' '] + rest);
    MarkAround("[]", ' ', "a" + [' '] + (name + [' '] + rest));
    RegroupClass(ClassText(c), rest);
  }

  lemma RegroupClass(c: string, rest: string)
    ensures "[] a carrier:" + c + ([' '] + rest) == "[]" + [' '] + ("a" + [' '] + (("carrier:" + c) + [' '] + rest))
  {
    assert "[] a carrier:" == "[]" + [' '] + "a" + [' '] + "carrier:";
  }

  lemma MarkInHeader(c: Class, accountBuf: string, rest: string)
    ensures Contains(Header(ClassText(c), accountBuf) + ([' '] + rest), READY_MARK) <==>
            c == AccountReady || Contains(CStrFromBuf(accountBuf), READY_MARK) || Contains([' '] + rest, READY_MARK)
  {
    var acct := CStrFromBuf(accountBuf);
    if acct == "" {
      ShortHasNoMark("");
      MarkInClass(c, rest);
      assert Header(ClassText(c), accountBuf) == "[] a carrier:" + ClassText(c);
    } else {
      MarkInAccount(c, acct, [' '] + rest);
      RegroupHeader("[] a carrier:" + ClassText(c), TurtleText.Field("carrier:account", acct), [' '] + rest);
    }
  }

  lemma MarkInAccount(c: Class, acct: string, tail: string)
    ensures Contains("[] a carrier:" + ClassText(c) + (" ; " + TurtleText.Field("carrier:account", acct) + tail),
                     READY_MARK)
       <==> c == AccountReady || Contains(acct, READY_MARK) || Contains(tail, READY_MARK)
  {
    var field := " ; " + TurtleText.Field("carrier:account", acct) + tail;
    ShortHasNoMark("carrier:account");
    MarkInQuotedField("carrier:account", acct, tail);
    SpaceFirst(" ; " + TurtleText.Field("carrier:account", acct), tail);
    MarkInClass(c, field[1..]);
  }

  lemma SpaceFirst(a: string, b: string)
    requires a != "" && a[0] == ' '
    ensures a + b == [' '] + (a + b)[1..] && (b == "" ==> a == [' '] + a[1..])
  {
  }

  lemma RegroupHeader(start: string, field: string, tail: string)
    ensures start + (" ; " + field) + tail == start + (" ; " + field + tail)
  {
  }

  /** The text test passes exactly the account-ready events, and those that carry the mark in
      their account or in a field. */
  lemma IsMarkedIff(e: Event)
    ensures IsMarked(e) <==> e.class_ == AccountReady || CarriesMark(e)
  {
    var end := TimeText(e.atMs) + " .";
    var rest := FieldsText(e.fields) + end;
    assert end[0] == ' ';
    TimeHasNoMark(e.atMs);
    MarkInFields(e.fields, end);
    FieldsStart(e.fields, end);
    SpaceFirst(rest, "");
    MarkInHeader(e.class_, e.accountBuf, rest[1..]);
  }

  // ----- what a line says to its readers -----

  /** The type scanner reads the event's class, whatever its data. */
  lemma ClassRead(e: Event)
    ensures Dispatch.TypeOf(Print(e)) == Some("http://resonator.network/v2/carrier#" + ClassText(e.class_))
  {
    TypeIsClass(e, ClassText(e.class_));
  }

  /** It reads the account-ready class from account-ready events and no others. */
  lemma ReadyReadIff(e: Event)
    ensures Dispatch.TypeOf(Print(e)) == Some("http://resonator.network/v2/carrier#" + "AccountReady")
       <==> e.class_ == AccountReady
  {
    TypeIsClass(e, ClassText(e.class_));
    ReadyIsReady(e.class_);
    SameAfter("http://resonator.network/v2/carrier#", ClassText(e.class_), "AccountReady");
  }

  lemma TextMessageRead(e: Event)
    requires e.class_ == TextMessage
    ensures Dispatch.TypeOf(Print(e)) == Some("http://resonator.network/v2/carrier#" + "TextMessage")
  {
    TypeIsClass(e, "TextMessage");
  }

  lemma TypeIsClass(e: Event, text: string)
    requires text == ClassText(e.class_)
    ensures Dispatch.TypeOf(Print(e)) == Some("http://resonator.network/v2/carrier#" + text)
  {
    ClassesAreLetters(e.class_);
    LettersAreWord(text);
    FieldsStart(e.fields, TimeText(e.atMs) + " .");
    Dispatch.HeaderTypeRead(text, e.accountBuf, FieldsText(e.fields) + (TimeText(e.atMs) + " ."));
  }

  lemma ReadyIsReady(c: Class)
    ensures ClassText(c) == "AccountReady" <==> c == AccountReady
  {
    ClassesAreLetters(c);
  }

  lemma LettersAreWord(s: string)
    requires IsLetters(s)
    ensures IsWord(s)
  {
  }

  lemma SameAfter(a: string, b: string, c: string)
    ensures a + b == a + c <==> b == c
  {
    assert (a + b)[|a|..] == b && (a + c)[|a|..] == c;
  }

  lemma FieldMarks(e: Event, i: nat)
    requires i < |e.fields| && HoldsMark(e.fields[i])
    ensures IsMarked(e)
  {
    IsMarkedIff(e);
  }

  /** A text message: its body is one of its fields. */
  predicate IsTextMessage(e: Event, body: string) {
    e.class_ == TextMessage && |e.fields| == 4 && e.fields[3] == Quoted(Text, body)
  }

  lemma TextMessageShape(accountBuf: string, contactBuf: string, conversationBuf: string, messageBuf: string,
                         body: string, atMs: int)
    ensures IsTextMessage(TextMessageEvent(accountBuf, contactBuf, conversationBuf, messageBuf, body, atMs), body)
  {
  }

  /** A text message whose body has the mark anywhere passes for an account-ready event, whoever
      sent it; the type scanner is not misled. */
  lemma TextMessagePasses(e: Event, body: string)
    requires IsTextMessage(e, body) && Contains(body, READY_MARK)
    ensures IsMarked(e)
    ensures Dispatch.TypeOf(Print(e)) == Some("http://resonator.network/v2/carrier#" + "TextMessage")
  {
    FieldMarks(e, 3);
    TextMessageRead(e);
  }

  /** What stands before field `i` of a line. */
  function BeforeField(e: Event, i: nat): string
    requires i < |e.fields|
  {
    Header(ClassText(e.class_), e.accountBuf) + FieldsText(e.fields[..i]) + " ; "
  }

  function AfterField(e: Event, i: nat): string
    requires i < |e.fields|
  {
    FieldsText(e.fields[i + 1..]) + (TimeText(e.atMs) + " .")
  }

  function FieldName(f: Field): string {
    "carrier:" + NameText(f.name)
  }

  /** The field's name does not occur before the field. */
  ghost predicate NamedFirst(e: Event, i: nat)
    requires i < |e.fields|
  {
    forall j: nat | j < |BeforeField(e, i)| :: !OccursAt(Print(e), FieldName(e.fields[i]) + " ", j)
  }

  /** A field that is the first to have its name is scanned as printed: text in its escaped form,
      a number as its digits. */
  lemma FieldRead(e: Event, i: nat)
    requires i < |e.fields| && NamedFirst(e, i)
    ensures TurtleText.PropertyOf(Print(e), FieldName(e.fields[i])) ==
            match e.fields[i]
            case Quoted(_, value) => if value == "" then None else Some(Escaped(value))
            case Bare(_, number) => Some(Decimal(number))
  {
    var f, pre, suffix := e.fields[i], BeforeField(e, i), AfterField(e, i);
    FieldStands(e, i);
    if f.Quoted? {
      Dispatch.Regroup(pre, TurtleText.Field(FieldName(f), f.value), suffix);
      PrintThenScan(pre, FieldName(f), f.value, suffix);
    } else {
      DecimalIsWord(f.number);
      FieldsStart(e.fields[i + 1..], TimeText(e.atMs) + " .");
      InFields(pre, FieldName(f) + " ", Decimal(f.number), suffix);
      BareTokenRead(pre, FieldName(f), Decimal(f.number), suffix);
    }
  }

  lemma InFields(a: string, b: string, c: string, d: string)
    ensures a + (b + c + d) == a + b + (c + d)
  {
  }

  /** A field's own text, without the separator before it. */
  function Bared(f: Field): string {
    match f
    case Quoted(_, value) => TurtleText.Field(FieldName(f), value)
    case Bare(_, number) => FieldName(f) + " " + Decimal(number)
  }

  lemma FieldStands(e: Event, i: nat)
    requires i < |e.fields|
    ensures Print(e) == BeforeField(e, i) + (Bared(e.fields[i]) + AfterField(e, i))
  {
    var f := e.fields[i];
    FieldsSplit(e.fields, i);
    BaredIs(f);
    InLine(Header(ClassText(e.class_), e.accountBuf), FieldsText(e.fields[..i]), " ; ", Bared(f),
           FieldsText(e.fields[i + 1..]), TimeText(e.atMs) + " .");
  }

  lemma BaredIs(f: Field)
    ensures FieldText(f) == " ; " + Bared(f)
  {
    match f
    case Quoted(name, value) =>
    case Bare(name, number) => SeparatorFirst(" ; ", FieldName(f), " ", Decimal(number));
  }

  lemma SeparatorFirst(a: string, b: string, c: string, d: string)
    ensures a + b + c + d == a + (b + c + d)
  {
  }

  lemma InLine(header: string, before: string, sep: string, field: string, after: string, end: string)
    ensures header + (before + (sep + field + after) + end) == header + before + sep + (field + (after + end))
  {
  }

  lemma {:induction false} FieldsSplit(fs: seq<Field>, i: nat)
    requires i < |fs|
    ensures FieldsText(fs) == FieldsText(fs[..i]) + (FieldText(fs[i]) + FieldsText(fs[i + 1..]))
  {
    if i == 0 {
      assert fs[..0] == [];
      assert FieldsText([]) + (FieldText(fs[0]) + FieldsText(fs[1..])) == FieldText(fs[0]) + FieldsText(fs[1..]);
    } else {
      FieldsSplit(fs[1..], i - 1);
      assert fs[1..][..i - 1] == fs[..i][1..] && fs[1..][i..] == fs[i + 1..];
      Dispatch.Regroup(FieldText(fs[0]), FieldsText(fs[..i][1..]), FieldText(fs[i]) + FieldsText(fs[i + 1..]));
    }
  }

  lemma DecimalIsWord(n: int)
    ensures IsWord(Decimal(n)) && Decimal(n)[0] != '"'
  {
    NumberOfDigits(if n < 0 then -n else n);
    CalendarText.DigitsNonEmpty(if n < 0 then -n else n);
  }

  /** Every line ends with the event's time, which, from the epoch to the year 9999, reads as the
      date and time of its second. */
  lemma TimeRead(e: Event) returns (text: string, stamp: Calendar.Stamp)
    requires 0 <= e.atMs && Calendar.Fields(Calendar.TruncDiv(e.atMs, 1000)).year <= 9999
    ensures Print(e) == Header(ClassText(e.class_), e.accountBuf)
                        + (FieldsText(e.fields) + (" ; carrier:at \"" + text + "\"^^xsd:dateTime" + " ."))
    ensures Calendar.NamesInstant(stamp, e.atMs) && CalendarText.ReadsAs(text, stamp)
  {
    text := Calendar.Render(Calendar.Fields(Calendar.TruncDiv(e.atMs, 1000)));
    stamp := CalendarText.TimestampReads(e.atMs);
  }

  // ----- the account -----

  const ACCOUNT_SEARCH: string := "carrier:account "

  /** The search for the account field skips the class. */
  lemma AccountFieldFirst(class_: string, rest: string)
    requires IsLetters(class_) && StartsUpper(class_)
    ensures var pre := "[] a carrier:" + class_ + " ; ";
            forall j: nat | j < |pre| :: !OccursAt(pre + rest, ACCOUNT_SEARCH, j)
  {
    var pre := "[] a carrier:" + class_ + " ; ";
    var line := pre + rest;
    assert |ACCOUNT_SEARCH| == 16;
    assert pre[|pre| - 1] == ' ' && forall k | 13 <= k < 13 + |class_| :: pre[k] == class_[k - 13];
    forall j: nat | j < |pre| && j + 16 <= |line| ensures !OccursAt(line, ACCOUNT_SEARCH, j) {
      var w := line[j..j + 16];
      assert w[0] == line[j] && w[7] == line[j + 7] && w[8] == line[j + 8];
      if j + 7 < |pre| {
        ColonsInPrefix(class_, j + 7);
      } else {
        assert w[|pre| - 1 - j] == ' ';
      }
    }
  }

  /** The only colon before the account is the one after `carrier`. */
  lemma ColonsInPrefix(class_: string, k: nat)
    requires IsLetters(class_) && k < |"[] a carrier:" + class_ + " ; "|
    ensures ("[] a carrier:" + class_ + " ; ")[k] == ':' <==> k == 12
  {
  }

  /** The account scanned from any printed event with an account is the escaped account, whatever
      its fields hold; it is the account itself exactly when nothing in it needs escaping. */
  lemma AccountRoundTrip(e: Event)
    requires AccountOf(e) != ""
    ensures PropertyOf(Print(e), "carrier:account") == Some(Escaped(AccountOf(e)))
    ensures PropertyOf(Print(e), "carrier:account") == Some(AccountOf(e)) <==>
            forall c | c in AccountOf(e) :: !NeedsEscape(c)
  {
    var class_, acct := ClassText(e.class_), AccountOf(e);
    var rest := FieldsText(e.fields) + (TimeText(e.atMs) + " .");
    ClassesAreLetters(e.class_);
    AccountScanned(class_, acct, rest);
    EscapedIsIdentityIff(acct);
    RegroupAccount("[] a carrier:" + class_, TurtleText.Field("carrier:account", acct), rest);
  }

  lemma RegroupAccount(start: string, field: string, rest: string)
    ensures start + (" ; " + field) + rest == start + " ; " + field + rest
  {
  }

  lemma AccountScanned(class_: string, acct: string, rest: string)
    requires IsLetters(class_) && StartsUpper(class_) && acct != ""
    ensures PropertyOf("[] a carrier:" + class_ + " ; " + TurtleText.Field("carrier:account", acct) + rest,
                       "carrier:account") == Some(Escaped(acct))
  {
    var pre := "[] a carrier:" + class_ + " ; ";
    var field := TurtleText.Field("carrier:account", acct);
    AccountFieldFirst(class_, field + rest);
    assert pre + field + rest == pre + (field + rest);
    assert "carrier:account" + " " == ACCOUNT_SEARCH;
    PrintThenScan(pre, "carrier:account", acct, rest);
  }
}
