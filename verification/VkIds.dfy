/** VK dialog, message and reply ids: unique keys, the peer parser, and the takeover allowlist. */
module VkIds {
  import opened Text
  import opened Wrappers

  const MAX_ID: nat := 128
  const MAX_ITEMS: nat := 64

  datatype IdError = IdInvalid
  datatype PeerError = PeerInvalid | PeerGroupMismatch
  datatype ConfigError = ConfigInvalid

  // --- printing ------------------------------------------------------------------------------------

  function Fitting(text: string): Result<string, IdError> {
    if |text| > MAX_ID then Err(IdInvalid) else Ok(text)
  }

  function ConversationText(group: nat, user: nat): string {
    "vk-" + (Decimal(group) + "-" + Decimal(user))
  }

  /** `vk-{group}-{user}`. */
  function ConversationId(group: int, user: int): Result<string, IdError> {
    if group <= 0 || user <= 0 then Err(IdInvalid) else Fitting(ConversationText(group, user))
  }

  /** `{conversation}-{message}`. */
  function EventId(group: int, user: int, message: int): Result<string, IdError> {
    if message <= 0 then Err(IdInvalid) else
    var base := ConversationId(group, user);
    if base.Err? then base else Fitting(base.value + "-" + Decimal(message))
  }

  /** `{conversation}-r-{message}`. */
  function ReplyEventId(group: int, user: int, message: int): Result<string, IdError> {
    if message <= 0 then Err(IdInvalid) else
    var base := ConversationId(group, user);
    if base.Err? then base else Fitting(base.value + "-r-" + Decimal(message))
  }

  /** An id is given out iff its numbers are positive and its text fits, and then it is that text. */
  lemma IdsExactly(g: int, u: int, m: int)
    ensures ConversationId(g, u) == (if g > 0 && u > 0 && |"vk-" + Decimal(g) + "-" + Decimal(u)| <= 128
                                     then Ok("vk-" + Decimal(g) + "-" + Decimal(u)) else Err(IdInvalid))
    ensures EventId(g, u, m)
            == (if g > 0 && u > 0 && m > 0 && |"vk-" + Decimal(g) + "-" + Decimal(u) + "-" + Decimal(m)| <= 128
                then Ok("vk-" + Decimal(g) + "-" + Decimal(u) + "-" + Decimal(m)) else Err(IdInvalid))
    ensures ReplyEventId(g, u, m)
            == (if g > 0 && u > 0 && m > 0 && |"vk-" + Decimal(g) + "-" + Decimal(u) + "-r-" + Decimal(m)| <= 128
                then Ok("vk-" + Decimal(g) + "-" + Decimal(u) + "-r-" + Decimal(m)) else Err(IdInvalid))
  {
    if g > 0 && u > 0 {
      hide Decimal;
      assert ConversationText(g, u) == "vk-" + Decimal(g) + "-" + Decimal(u);
    }
  }

  // --- ids as unique keys ----------------------------------------------------------------------------

  lemma DecimalHasNoDash(n: nat)
    ensures '-' !in Decimal(n)
  {
    DigitsHaveNo(Decimal(n), '-');
  }

  lemma Regroup(group: nat, user: nat, tail: string)
    ensures ConversationText(group, user) + tail == "vk" + "-" + (Decimal(group) + "-" + (Decimal(user) + tail))
  {
    hide Decimal;
  }

  /** What follows the user id is empty or starts with a dash, so group, user and the rest can be told apart. */
  lemma PartsDecodable(g: nat, u: nat, tail: string, g': nat, u': nat, tail': string)
    requires ConversationText(g, u) + tail == ConversationText(g', u') + tail'
    requires (tail == "" || tail[0] == '-') && (tail' == "" || tail'[0] == '-')
    ensures g == g' && u == u' && tail == tail'
  {
    Regroup(g, u, tail);
    Regroup(g', u', tail');
    DecimalHasNoDash(g);
    DecimalHasNoDash(g');
    DecimalHasNoDash(u);
    DecimalHasNoDash(u');
    var (rest, rest') := (Decimal(u) + tail, Decimal(u') + tail');
    SplitAtSeparator("vk", Decimal(g) + "-" + rest, "vk", Decimal(g') + "-" + rest', '-');
    SplitAtSeparator(Decimal(g), rest, Decimal(g'), rest', '-');
    DigitsThenDash(Decimal(u), tail, Decimal(u'), tail');
    DecimalInjective(g, g');
    DecimalInjective(u, u');
  }

  lemma DigitsThenDash(a: string, x: string, b: string, y: string)
    requires '-' !in a && '-' !in b && (x == "" || x[0] == '-') && (y == "" || y[0] == '-') && a + x == b + y
    ensures a == b && x == y
  {
    var t := a + x;
    DashBehind(a, x, t);
    DashBehind(b, y, t);
    assert |a| == |b|;
    assert a == t[..|a|] == b && x == t[|a|..] == y;
  }

  lemma DashBehind(a: string, x: string, t: string)
    requires t == a + x && '-' !in a && (x == "" || x[0] == '-')
    ensures |a| <= |t| && (|a| < |t| ==> t[|a|] == '-') && forall i :: 0 <= i < |a| ==> t[i] != '-'
  {
    forall i | 0 <= i < |a| ensures t[i] != '-' {
      assert t[i] == a[i];
    }
  }

  /** A message id names one group, user and message. */
  lemma EventIdInjective(g: int, u: int, m: int, g': int, u': int, m': int)
    requires EventId(g, u, m).Ok? && EventId(g, u, m) == EventId(g', u', m')
    ensures g == g' && u == u' && m == m'
  {
    hide Decimal;
    PartsDecodable(g, u, "-" + Decimal(m), g', u', "-" + Decimal(m')) by {
      TailBehind(g, u, m, "-");
      TailBehind(g', u', m', "-");
    }
    assert Decimal(m) == ("-" + Decimal(m))[1..] == ("-" + Decimal(m'))[1..] == Decimal(m');
    DecimalInjective(m, m');
  }

  lemma TailBehind(g: nat, u: nat, m: nat, sep: string)
    ensures ConversationText(g, u) + sep + Decimal(m) == ConversationText(g, u) + (sep + Decimal(m))
  {
  }

  lemma ReplyEventIdInjective(g: int, u: int, m: int, g': int, u': int, m': int)
    requires ReplyEventId(g, u, m).Ok? && ReplyEventId(g, u, m) == ReplyEventId(g', u', m')
    ensures g == g' && u == u' && m == m'
  {
    hide Decimal;
    PartsDecodable(g, u, "-r-" + Decimal(m), g', u', "-r-" + Decimal(m')) by {
      TailBehind(g, u, m, "-r-");
      TailBehind(g', u', m', "-r-");
    }
    assert Decimal(m) == ("-r-" + Decimal(m))[3..] == ("-r-" + Decimal(m'))[3..] == Decimal(m');
    DecimalInjective(m, m');
  }

  /** Messages and replies never share an id: the unique ingress key keeps their events apart. */
  lemma EventAndReplyIdsDiffer(g: int, u: int, m: int, g': int, u': int, m': int)
    requires EventId(g, u, m).Ok? && ReplyEventId(g', u', m').Ok?
    ensures EventId(g, u, m) != ReplyEventId(g', u', m')
  {
    if EventId(g, u, m) == ReplyEventId(g', u', m') {
      TailBehind(g, u, m, "-");
      TailBehind(g', u', m', "-r-");
      PartsDecodable(g, u, "-" + Decimal(m), g', u', "-r-" + Decimal(m'));
      TailsDiffer(m, m');
    }
  }

  lemma TailsDiffer(m: nat, m': nat)
    ensures "-" + Decimal(m) != "-r-" + Decimal(m')
  {
    assert IsDigit(("-" + Decimal(m))[1]);
    assert ("-r-" + Decimal(m'))[1] == 'r';
  }

  // --- the peer parser -------------------------------------------------------------------------------

  /** What `\d` and int() make of a character: ASCII digits, and other decimal digits of Unicode. */
  type DigitMap = char -> Option<nat>

  ghost predicate DigitMapOk(digit: DigitMap) {
    forall c: char :: if IsDigit(c) then digit(c) == Some(DigitValue(c)) else c == '-' ==> digit(c).None?
  }

  predicate Digits(digit: DigitMap, s: string) {
    s != "" && forall i :: 0 <= i < |s| ==> digit(s[i]).Some?
  }

  function Number(digit: DigitMap, s: string): nat
    requires forall i :: 0 <= i < |s| ==> digit(s[i]).Some?
  {
    if s == "" then 0 else Number(digit, s[..|s| - 1]) * 10 + digit(s[|s| - 1]).value
  }

  function FirstDash(s: string): (n: nat)
    ensures n <= |s| && (n < |s| ==> s[n] == '-') && '-' !in s[..n]
  {
    if s == "" || s[0] == '-' then 0 else
    var n := 1 + FirstDash(s[1..]);
    assert s[..n] == [s[0]] + s[1..][..n - 1];
    n
  }

  /** The two captures of `^vk-(\d+)-(\d+)$`. */
  function Captures(digit: DigitMap, s: string): Option<(string, string)> {
    if |s| < 3 || s[..3] != "vk-" then None else
    var n := FirstDash(s[3..]);
    if n == |s| - 3 then None else
    var (group, user) := (s[3..][..n], s[3..][n + 1..]);
    if Digits(digit, group) && Digits(digit, user) then Some((group, user)) else None
  }

  /** `parse_vk_client_peer_id`. */
  function ParsePeer(digit: DigitMap, s: string, expectedGroup: int): Result<nat, PeerError> {
    if expectedGroup <= 0 || Captures(digit, s).None? then Err(PeerInvalid) else
    var (group, user) := Captures(digit, s).value;
    if Number(digit, group) != expectedGroup then Err(PeerGroupMismatch)
    else if Number(digit, user) <= 0 then Err(PeerInvalid)
    else Ok(Number(digit, user))
  }

  lemma CapturesShape(digit: DigitMap, s: string, group: string, user: string)
    requires DigitMapOk(digit) && Digits(digit, group) && Digits(digit, user)
    ensures Captures(digit, s) == Some((group, user)) <==> s == "vk-" + (group + "-" + user)
  {
    if s == "vk-" + (group + "-" + user) {
      var t := s[3..];
      assert s[..3] == "vk-" && t == group + "-" + user;
      forall i | 0 <= i < |group| ensures group[i] != '-' { assert digit(group[i]).Some?; }
      DashBehind(group, "-" + user, t) by { assert t == group + ("-" + user); }
      FirstDashAt(t, |group|);
      assert t[..|group|] == group && t[|group| + 1..] == user;
    }
    if Captures(digit, s) == Some((group, user)) {
      var t := s[3..];
      assert t == group + "-" + user && s == s[..3] + t;
    }
  }

  ghost predicate IsPeerText(digit: DigitMap, s: string, group: string, user: string) {
    Digits(digit, group) && Digits(digit, user) && s == "vk-" + (group + "-" + user)
  }

  /** The parser's answers by the text alone: the peer, a mismatch of the group, or an invalid text. */
  lemma PeerExactly(digit: DigitMap, s: string, expected: int)
    requires DigitMapOk(digit)
    ensures forall peer ::
              ParsePeer(digit, s, expected) == Ok(peer) <==>
                expected > 0 && peer > 0
                && exists group, user :: && IsPeerText(digit, s, group, user)
                                         && Number(digit, group) == expected && Number(digit, user) == peer
    ensures ParsePeer(digit, s, expected) == Err(PeerGroupMismatch) <==>
              expected > 0
              && exists group, user :: IsPeerText(digit, s, group, user) && Number(digit, group) != expected
  {
    hide Captures;
    forall group, user | Digits(digit, group) && Digits(digit, user)
      ensures Captures(digit, s) == Some((group, user)) <==> IsPeerText(digit, s, group, user)
    {
      CapturesShape(digit, s, group, user);
    }
    if Captures(digit, s).Some? {
      CapturesAreDigits(digit, s);
      assert IsPeerText(digit, s, Captures(digit, s).value.0, Captures(digit, s).value.1);
    }
  }

  lemma CapturesAreDigits(digit: DigitMap, s: string)
    requires Captures(digit, s).Some?
    ensures Digits(digit, Captures(digit, s).value.0) && Digits(digit, Captures(digit, s).value.1)
  {
  }

  lemma {:induction false} FirstDashAt(s: string, n: nat)
    requires n < |s| && s[n] == '-' && forall i :: 0 <= i < n ==> s[i] != '-'
    ensures FirstDash(s) == n
  {
    if n > 0 { FirstDashAt(s[1..], n - 1); }
  }

  lemma {:induction false} NumberIsValue(digit: DigitMap, s: string)
    requires DigitMapOk(digit) && AllDigits(s)
    ensures (forall i :: 0 <= i < |s| ==> digit(s[i]).Some?) && Number(digit, s) == Value(s)
  {
    if s != "" { NumberIsValue(digit, s[..|s| - 1]); }
  }

  lemma NumberOfDecimal(digit: DigitMap, n: nat)
    requires DigitMapOk(digit)
    ensures Digits(digit, Decimal(n)) && Number(digit, Decimal(n)) == n
  {
    NumberIsValue(digit, Decimal(n));
    ValueOfDecimal(n);
  }

  /** Peer parsing inverts conversation-id printing. */
  lemma PeerOfConversationId(digit: DigitMap, group: int, user: int)
    requires DigitMapOk(digit) && ConversationId(group, user).Ok?
    ensures ParsePeer(digit, ConversationId(group, user).value, group) == Ok(user)
  {
    NumberOfDecimal(digit, group);
    NumberOfDecimal(digit, user);
    CapturesShape(digit, ConversationText(group, user), Decimal(group), Decimal(user));
  }

  /**
   * The converse holds exactly for canonical digits: an accepted text is the printed id of its group and peer iff
   * both captures are canonical decimals and the text fits.
   */
  lemma ConversationIdOfPeer(digit: DigitMap, s: string, group: int)
    requires DigitMapOk(digit) && ParsePeer(digit, s, group).Ok?
    ensures ConversationId(group, ParsePeer(digit, s, group).value) == Ok(s)
            <==> && CanonicalDecimal(Captures(digit, s).value.0) && CanonicalDecimal(Captures(digit, s).value.1)
                 && |s| <= MAX_ID
  {
    var (a, b) := Captures(digit, s).value;
    var user := ParsePeer(digit, s, group).value;
    CapturesShape(digit, s, a, b);
    if ConversationId(group, user) == Ok(s) {
      NumberOfDecimal(digit, group);
      NumberOfDecimal(digit, user);
      CapturesShape(digit, s, Decimal(group), Decimal(user));
      DecimalIsCanonical(group);
      DecimalIsCanonical(user);
    }
    if CanonicalDecimal(a) && CanonicalDecimal(b) {
      NumberIsValue(digit, a);
      NumberIsValue(digit, b);
      DecimalOfValue(a);
      DecimalOfValue(b);
    }
  }

  function AsciiDigits(): DigitMap {
    (c: char) => if IsDigit(c) then Some(DigitValue(c)) else None
  }

  lemma SmallValues()
    ensures AllDigits("07") && AllDigits("7") && AllDigits("5") && Value("07") == 7 == Value("7") && Value("5") == 5
  {
    assert Value("") == 0 && "0"[..0] == "" && "7"[..0] == "" && "5"[..0] == "";
    assert Value("0") == 0 && "07"[..1] == "0";
  }

  /** Two texts, one peer: a leading zero is accepted. */
  lemma LeadingZeroAccepted()
    ensures ParsePeer(AsciiDigits(), "vk-07-5", 7) == Ok(5) == ParsePeer(AsciiDigits(), "vk-7-5", 7)
  {
    var d := AsciiDigits();
    assert DigitMapOk(d);
    SmallValues();
    hide Captures, Number, Value, AsciiDigits, DigitMapOk, CanonicalDecimal, Decimal;
    NumberIsValue(d, "07");
    NumberIsValue(d, "7");
    NumberIsValue(d, "5");
    assert "vk-" + ("07" + "-" + "5") == "vk-07-5" && "vk-" + ("7" + "-" + "5") == "vk-7-5";
    CapturesShape(d, "vk-07-5", "07", "5");
    CapturesShape(d, "vk-7-5", "7", "5");
  }

  // --- the allowlist -----------------------------------------------------------------------------------

  /** str.split with a one-character separator. */
  function Split(s: string, sep: char): (parts: seq<string>)
    ensures |parts| >= 1
  {
    if s == "" then [""]
    else if s[0] == sep then [""] + Split(s[1..], sep)
    else
      var rest := Split(s[1..], sep);
      [[s[0]] + rest[0]] + rest[1..]
  }

  lemma {:induction false} SplitLast(a: string, sep: char)
    requires sep !in a
    ensures Split(a, sep) == [a]
  {
    if a != "" {
      SplitLast(a[1..], sep);
      assert a == [a[0]] + a[1..];
    }
  }

  lemma {:induction false} SplitFirst(a: string, x: string, sep: char)
    requires sep !in a
    ensures Split(a + [sep] + x, sep) == [a] + Split(x, sep)
  {
    var s := a + [sep] + x;
    if a == "" {
      assert s == [sep] + x && s[1..] == x;
    } else {
      assert s[0] == a[0] && s[1..] == a[1..] + [sep] + x;
      SplitFirst(a[1..], x, sep);
      assert a == [a[0]] + a[1..];
    }
  }

  /** int() on text; only its value on printed integers matters. */
  type IntParser = string -> Option<int>

  ghost predicate IntParserOk(parse: IntParser) {
    forall n: nat :: parse(Decimal(n)) == Some(n)
  }

  predicate HasControl(s: string) {
    exists i :: 0 <= i < |s| && s[i] as int < 32
  }

  /** The checks the loader makes on one stripped item. */
  predicate ItemAccepted(parse: IntParser, item: string) {
    && |item| <= MAX_ID && !HasControl(item) && |item| >= 3 && item[..3] == "vk-"
    && var bits := Split(item, '-');
    && |bits| == 3 && parse(bits[1]).Some? && parse(bits[2]).Some?
    && ConversationId(parse(bits[1]).value, parse(bits[2]).value) == Ok(item)
  }

  /** The printed id of some dialog. */
  ghost predicate IsConversationId(item: string) {
    exists group: int, user: int :: ConversationId(group, user) == Ok(item)
  }

  lemma BitsOfConversation(group: nat, user: nat)
    ensures Split(ConversationText(group, user), '-') == ["vk", Decimal(group), Decimal(user)]
  {
    hide Decimal, Split;
    DecimalHasNoDash(group);
    DecimalHasNoDash(user);
    SplitLast(Decimal(user), '-');
    SplitFirst(Decimal(group), Decimal(user), '-');
    var rest := Decimal(group) + "-" + Decimal(user);
    SplitFirst("vk", rest, '-');
    assert ConversationText(group, user) == "vk" + "-" + rest;
  }

  lemma NoControlInConversation(group: nat, user: nat)
    ensures !HasControl(ConversationText(group, user))
  {
    var s := ConversationText(group, user);
    forall i | 0 <= i < |s| ensures s[i] as int >= 32 {
      assert s[i] in "vk-" || s[i] in Decimal(group) || s[i] == '-' || s[i] in Decimal(user);
    }
  }

  /** An item passes the loader's checks iff it is the canonical id of some dialog. */
  lemma AcceptedIffCanonical(parse: IntParser, item: string)
    requires IntParserOk(parse)
    ensures ItemAccepted(parse, item) <==> IsConversationId(item)
  {
    if IsConversationId(item) {
      var group: int, user: int :| ConversationId(group, user) == Ok(item);
      BitsOfConversation(group, user);
      NoControlInConversation(group, user);
      hide Decimal, Split;
      assert item == "vk-" + (Decimal(group) + "-" + Decimal(user)) && item[..3] == "vk-";
    }
  }

  /** The non-empty items the list names. */
  function Items(parts: seq<string>): set<string> {
    set i | 0 <= i < |parts| && Strip(parts[i]) != "" :: Strip(parts[i])
  }

  /** The allowlist of `load_vk_client_external_takeover_config`: kept whole, or refused whole. */
  method LoadAllowlist(parse: IntParser, raw: Option<string>) returns (r: Result<set<string>, ConfigError>)
    requires IntParserOk(parse)
    ensures r.Ok? <==> && raw.Some? && Strip(raw.value) != ""
                       && (forall item :: item in Items(Split(raw.value, ',')) ==> IsConversationId(item))
                       && 1 <= |Items(Split(raw.value, ','))| <= MAX_ITEMS
    ensures r.Ok? ==> r.value == Items(Split(raw.value, ','))
  {
    if raw.None? || Strip(raw.value) == "" { return Err(ConfigInvalid); }
    var parts := Split(raw.value, ',');
    hide Split, Strip, ItemAccepted, IsConversationId;
    var items: set<string> := {};
    for i := 0 to |parts|
      invariant items == Items(parts[..i])
      invariant forall item :: item in items ==> IsConversationId(item)
    {
      var item := Strip(parts[i]);
      NextItem(parts, i);
      if item != "" {
        AcceptedIffCanonical(parse, item);
        if !ItemAccepted(parse, item) {
          assert item in Items(parts);
          return Err(ConfigInvalid);
        }
        items := items + {item};
      }
    }
    assert parts[..|parts|] == parts;
    if items == {} || |items| > MAX_ITEMS { return Err(ConfigInvalid); }
    return Ok(items);
  }

  lemma NextItem(parts: seq<string>, i: nat)
    requires i < |parts|
    ensures Items(parts[..i + 1]) == Items(parts[..i]) + if Strip(parts[i]) != "" then {Strip(parts[i])} else {}
    ensures Strip(parts[i]) != "" ==> Strip(parts[i]) in Items(parts)
  {
    hide Strip;
    var (was, now) := (parts[..i], parts[..i + 1]);
    assert forall j :: 0 <= j < i ==> now[j] == was[j];
    assert now[i] == parts[i];
    forall item | item in Items(was) ensures item in Items(now) {
      var j :| 0 <= j < |was| && Strip(was[j]) != "" && item == Strip(was[j]);
      assert now[j] == was[j];
    }
  }
}
