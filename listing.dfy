/** Parsing the `LIST` reply of the VirtualHere client into the target device (src/main.ts:40-56, 73-108). */
module Listing {
  import opened Wrappers
  import opened Text

  /** Substring naming the target device in a listing line. */
  const DEVICE_NAME := "Wooting 60HE+"
  /** Marker the client prints on a line whose device this host has claimed. */
  const IN_USE_MARKER := "In-use by you"
  /** First and last text of a complete listing. */
  const LIST_BANNER := "VirtualHere Client IPC"
  const LIST_TRAILER := "VirtualHere Client is running as a service"

  /** The three states, persisted as the tokens of `Token()`. */
  datatype State = Unavailable | Connected | Disconnected {
    function Token(): string {
      match this
      case Unavailable => "UNAVAILABLE"
      case Connected => "CONNECTED"
      case Disconnected => "DISCONNECTED"
    }
  }

  /** Distinct states have distinct tokens, so comparing stored tokens and
      comparing states agree. */
  lemma TokenInjective(a: State, b: State)
    ensures a.Token() == b.Token() <==> a == b
  {
    if a != b {
      assert a.Token()[0] != b.Token()[0] || |a.Token()| != |b.Token()|;
    }
  }

  /** The device. The source's record keeps an address beside the state;
      here only the present variants carry one, so the two cannot disagree. */
  datatype Device = Unavailable | Connected(address: string) | Disconnected(address: string) {
    function Status(): State {
      match this
      case Unavailable => State.Unavailable
      case Connected(_) => State.Connected
      case Disconnected(_) => State.Disconnected
    }

    /** The `address` field of the source's record: present exactly when the
        state is not UNAVAILABLE. */
    function Address(): (r: Option<string>)
      ensures r.Some? <==> Status() != State.Unavailable
      ensures r.Some? ==> r.value == address
    {
      if Unavailable? then None else Some(address)
    }
  }

  // ---------------------------------------------------------------------
  // The pattern /\(([^)]+)\)/
  // ---------------------------------------------------------------------

  /** The pattern matches `line[p..q + 1]`: an opening parenthesis at `p`, a
      closing one at `q`, and between them at least one character, none of
      them a closing parenthesis. Group 1 is `line[p + 1..q]`. */
  predicate MatchAt(line: string, p: int, q: int) {
    0 <= p && p + 1 < q < |line| && line[p] == '(' && line[q] == ')' &&
    forall k :: p < k < q ==> line[k] != ')'
  }

  /** The match JavaScript reports: the one starting leftmost. */
  ghost predicate LeftmostMatch(line: string, p: int, q: int) {
    MatchAt(line, p, q) && forall p', q' :: p' < p ==> !MatchAt(line, p', q')
  }

  /** A match start fixes its end: the first `)` after the `(`. */
  lemma MatchEndUnique(line: string, p: int, q: int, q': int)
    requires MatchAt(line, p, q) && MatchAt(line, p, q')
    ensures q == q'
  {
  }

  /** Index of the first `)` at or after `k`, or `|line|`. */
  function NextClose(line: string, k: nat): (r: nat)
    requires k <= |line|
    decreases |line| - k
    ensures k <= r <= |line|
    ensures r < |line| ==> line[r] == ')'
    ensures forall m :: k <= m < r ==> line[m] != ')'
  {
    if k == |line| || line[k] == ')' then k else NextClose(line, k + 1)
  }

  /** A match starting at `p` ends at the first `)` after `p + 1`. */
  lemma MatchEndsAtNextClose(line: string, p: nat)
    requires p < |line|
    ensures forall q :: MatchAt(line, p, q) ==> q == NextClose(line, p + 1)
  {
  }

  /** The regex engine's scan: try each start position from `i` on. */
  function MatchFrom(line: string, i: nat): (r: Option<(nat, nat)>)
    requires i <= |line|
    decreases |line| - i
    ensures r.Some? ==> i <= r.value.0 && MatchAt(line, r.value.0, r.value.1)
    ensures r.Some? ==> forall p, q :: i <= p < r.value.0 ==> !MatchAt(line, p, q)
    ensures r.None? ==> forall p, q :: i <= p ==> !MatchAt(line, p, q)
  {
    if i == |line| then None
    else if line[i] == '(' && i + 1 < NextClose(line, i + 1) < |line| then
      Some((i, NextClose(line, i + 1)))
    else
      MatchEndsAtNextClose(line, i);
      MatchFrom(line, i + 1)
  }

  /** `line.match(/\(([^)]+)\)/)?.at(1)`: the text inside the leftmost
      parenthesised group with non-empty content free of `)`. */
  function FindAddress(line: string): (r: Option<string>)
    ensures r.Some? ==> exists p, q :: LeftmostMatch(line, p, q) && r.value == line[p + 1..q]
    ensures r.None? <==> forall p, q :: !MatchAt(line, p, q)
  {
    match MatchFrom(line, 0)
    case Some((p, q)) =>
      assert LeftmostMatch(line, p, q);
      Some(line[p + 1..q])
    case None => None
  }

  /** The address found is never empty and holds no `)`. */
  lemma AddressShape(line: string)
    requires FindAddress(line).Some?
    ensures |FindAddress(line).value| > 0 && ')' !in FindAddress(line).value
  {
    var p, q :| LeftmostMatch(line, p, q) && FindAddress(line).value == line[p + 1..q];
    var a := line[p + 1..q];
    assert forall k :: 0 <= k < |a| ==> a[k] == line[p + 1 + k];
  }

  /** An empty group does not match, so the scan moves on to the next one. */
  lemma EmptyGroupIsSkipped()
    ensures FindAddress("() (b)") == Some("b")
  {
    var line := "() (b)";
    MatchEndsAtNextClose(line, 0);
    assert NextClose(line, 1) == 1;
    assert line[1] != '(' && line[2] != '(';
    assert MatchAt(line, 3, 5);
    assert LeftmostMatch(line, 3, 5);
    LeftmostMatchFound(line, 3, 5);
    assert line[4..5] == "b";
  }

  // ---------------------------------------------------------------------
  // The listing
  // ---------------------------------------------------------------------

  /** The `tryUntil` condition: a complete listing, banner first and trailer last. */
  predicate IsValidListing(reply: string) {
    StartsWith(reply, LIST_BANNER) && EndsWith(reply, LIST_TRAILER)
  }

  /** `lines.find(line => line.includes(name))`, as an index. */
  function FirstLineWith(lines: seq<string>, name: string, i: nat): (r: Option<nat>)
    requires i <= |lines|
    decreases |lines| - i
    ensures r.Some? ==> i <= r.value < |lines| && Includes(lines[r.value], name)
    ensures r.Some? ==> forall k :: i <= k < r.value ==> !Includes(lines[k], name)
    ensures r.None? ==> forall k :: i <= k < |lines| ==> !Includes(lines[k], name)
  {
    if i == |lines| then None
    else if Includes(lines[i], name) then Some(i)
    else FirstLineWith(lines, name, i + 1)
  }

  /** `lines[i]` is the first line naming the target device. */
  predicate IsFirstDeviceLine(lines: seq<string>, i: int) {
    0 <= i < |lines| && Includes(lines[i], DEVICE_NAME) &&
    forall k :: 0 <= k < i ==> !Includes(lines[k], DEVICE_NAME)
  }

  /** The trimmed first device line, or "" when no line names the device. */
  function DeviceLine(reply: string): string {
    var lines := Split(reply, '\n');
    match FirstLineWith(lines, DEVICE_NAME, 0)
    case Some(i) => Trim(lines[i])
    case None => ""
  }

  /** The parsing part of `getDevice` (src/main.ts:88-107), for an accepted reply. */
  function ParseListing(reply: string): Device {
    ParseLine(DeviceLine(reply))
  }

  /** Address and in-use status read off the chosen line. */
  function ParseLine(line: string): Device {
    match FindAddress(line)
    case None => Device.Unavailable
    case Some(address) =>
      if Includes(line, IN_USE_MARKER) then Device.Connected(address) else Device.Disconnected(address)
  }

  /** `getDevice` after polling: no accepted reply means UNAVAILABLE. */
  function DeviceFrom(reply: Option<string>): Device {
    match reply
    case None => Device.Unavailable
    case Some(text) => ParseListing(text)
  }

  /** A reply in which no line names the device parses as UNAVAILABLE. */
  lemma NoDeviceLineIsUnavailable(reply: string)
    requires forall k :: 0 <= k < |Split(reply, '\n')| ==> !Includes(Split(reply, '\n')[k], DEVICE_NAME)
    ensures ParseListing(reply) == Device.Unavailable
  {
    assert DeviceLine(reply) == "";
  }

  /** The first device line is the one `find` returns. */
  lemma FirstDeviceLineFound(lines: seq<string>, i: int)
    requires IsFirstDeviceLine(lines, i)
    ensures FirstLineWith(lines, DEVICE_NAME, 0) == Some(i)
  {
  }

  /** The leftmost match is the one FindAddress reports. */
  lemma LeftmostMatchFound(line: string, p: int, q: int)
    requires LeftmostMatch(line, p, q)
    ensures FindAddress(line) == Some(line[p + 1..q])
  {
    var m := MatchFrom(line, 0);
    assert MatchAt(line, p, q);
    assert m.Some?;
    var (p', q') := m.value;
    assert MatchAt(line, p', q');
    assert !(p < p');
    assert !(p' < p);
    MatchEndUnique(line, p, q, q');
  }

  /** A line is read as UNAVAILABLE when it has no `(...)` group; otherwise
      the leftmost group is the address, and the state is CONNECTED exactly
      when the line carries the in-use marker. */
  lemma ParseLineCases(line: string)
    ensures (forall p, q :: !MatchAt(line, p, q)) ==> ParseLine(line) == Device.Unavailable
    ensures forall p, q :: LeftmostMatch(line, p, q) ==>
      ParseLine(line) ==
        if Includes(line, IN_USE_MARKER) then Device.Connected(line[p + 1..q])
        else Device.Disconnected(line[p + 1..q])
  {
    forall p, q | LeftmostMatch(line, p, q)
      ensures FindAddress(line) == Some(line[p + 1..q])
    {
      LeftmostMatchFound(line, p, q);
    }
  }

  /** The line the parser reads is the trimmed first line naming the device. */
  lemma ParseUsesFirstDeviceLine(reply: string, i: int)
    requires IsFirstDeviceLine(Split(reply, '\n'), i)
    ensures ParseListing(reply) == ParseLine(Trim(Split(reply, '\n')[i]))
  {
    FirstDeviceLineFound(Split(reply, '\n'), i);
  }

  /** The example device line `1.2.3.4 (Wooting 60HE+ keyboard) In-use by you`
      of a listing, after trimming, and the address in it. */
  const EXAMPLE_ADDRESS := DEVICE_NAME + " keyboard"
  const EXAMPLE_HOST := "1.2.3.4 ("
  const EXAMPLE_LINE := EXAMPLE_HOST + EXAMPLE_ADDRESS + ") " + IN_USE_MARKER
  /** The same line as the client prints it, indented by two spaces. */
  const EXAMPLE_INDENTED := "  " + EXAMPLE_LINE

  /** Trimming the indented example line drops its two leading spaces. */
  lemma TrimExampleLine()
    ensures Trim(EXAMPLE_INDENTED) == EXAMPLE_LINE
  {
    var t := EXAMPLE_LINE;
    assert t[0] == '1';
    assert t[|t| - 1] == IN_USE_MARKER[|IN_USE_MARKER| - 1];
    assert TrimStart(t) == t;
    assert (" " + t)[1..] == t;
    assert TrimStart(" " + t) == t;
    assert ("  " + t)[1..] == " " + t;
    assert TrimStart("  " + t) == t;
    assert TrimEnd(t) == t;
  }

  /** The trimmed example line reads as CONNECTED with the group as the address. */
  lemma ParseExampleLine()
    ensures ParseLine(EXAMPLE_LINE) == Device.Connected(EXAMPLE_ADDRESS)
  {
    var line, pre, group := EXAMPLE_LINE, EXAMPLE_HOST, EXAMPLE_ADDRESS;
    assert |pre| == 9 && |group| == 22;
    assert MatchAt(line, 8, 31) by {
      assert ')' !in group;
      forall k | 8 < k < 31 ensures line[k] != ')' {
        assert line[k] == group[k - 9];
      }
    }
    assert LeftmostMatch(line, 8, 31) by {
      forall p', q' | p' < 8 ensures !MatchAt(line, p', q') {
        assert p' < 0 || line[p'] == pre[p'];
      }
    }
    LeftmostMatchFound(line, 8, 31);
    assert line[9..31] == group;
    assert OccursAt(line, IN_USE_MARKER, 33) by {
      assert line[33..] == IN_USE_MARKER;
    }
  }

  /** A three-line reply whose first line does not name the device and
      whose middle line does is read off the middle line, trimmed; the last
      line may hold anything. */
  lemma ThreeLineListing(first: string, line: string, last: string)
    requires '\n' !in first && '\n' !in line && '\n' !in last
    requires !Includes(first, DEVICE_NAME) && Includes(line, DEVICE_NAME)
    ensures ParseListing(first + "\n" + line + "\n" + last) == ParseLine(Trim(line))
  {
    var lines := [first, line, last];
    var reply := first + "\n" + line + "\n" + last;
    assert Join(lines, '\n') == reply by {
      assert Join([last], '\n') == last;
      assert lines[1..] == [line, last];
      assert Join([line, last], '\n') == line + ['\n'] + last;
    }
    SplitJoin(lines, '\n');
    assert IsFirstDeviceLine(lines, 1);
    ParseUsesFirstDeviceLine(reply, 1);
  }

  /** The example listing: the banner, the indented device line, the trailer. */
  function ExampleListing(): string {
    LIST_BANNER + "\n" + EXAMPLE_INDENTED + "\n" + LIST_TRAILER
  }

  /** The example listing has the banner first and the trailer last. */
  lemma ExampleListingIsValid()
    ensures IsValidListing(ExampleListing())
  {
    var reply := ExampleListing();
    assert reply[..|LIST_BANNER|] == LIST_BANNER;
    assert reply[|reply| - |LIST_TRAILER|..] == LIST_TRAILER;
  }

  /** No line of the example listing holds a line break. */
  lemma ExampleLinesUnbroken()
    ensures '\n' !in LIST_BANNER && '\n' !in EXAMPLE_INDENTED && '\n' !in LIST_TRAILER
  {
    assert '\n' !in EXAMPLE_HOST && '\n' !in DEVICE_NAME && '\n' !in " keyboard) " && '\n' !in IN_USE_MARKER;
  }

  /** The banner line does not name the device. */
  lemma BannerNamesNoDevice()
    ensures !Includes(LIST_BANNER, DEVICE_NAME)
  {
    assert 'W' !in LIST_BANNER;
    FirstCharMissing(LIST_BANNER, DEVICE_NAME);
  }

  /** The indented example line names the device. */
  lemma ExampleLineNamesDevice()
    ensures Includes(EXAMPLE_INDENTED, DEVICE_NAME)
  {
    var s, line, n := EXAMPLE_INDENTED, EXAMPLE_LINE, |DEVICE_NAME|;
    assert line[9..9 + n] == EXAMPLE_ADDRESS[..n] == DEVICE_NAME;
    assert s[11..11 + n] == line[9..9 + n];
    assert OccursAt(s, DEVICE_NAME, 11);
  }

  /** A complete listing whose one device line carries the in-use marker
      is accepted and read as CONNECTED, with the group as the address. */
  lemma ClaimedDeviceListing()
    ensures IsValidListing(ExampleListing())
    ensures ParseListing(ExampleListing()) == Device.Connected(EXAMPLE_ADDRESS)
  {
    ExampleListingIsValid();
    ExampleLinesUnbroken();
    BannerNamesNoDevice();
    ExampleLineNamesDevice();
    ThreeLineListing(LIST_BANNER, EXAMPLE_INDENTED, LIST_TRAILER);
    TrimExampleLine();
    ParseExampleLine();
  }

  /** The parse is UNAVAILABLE exactly when no line names the device or the
      first such line has no `(...)` group; otherwise its address is the
      content of that group. */
  lemma UnavailableCases(reply: string)
    ensures var lines := Split(reply, '\n');
      ParseListing(reply).Unavailable? <==>
        (forall k :: 0 <= k < |lines| ==> !Includes(lines[k], DEVICE_NAME)) ||
        (exists i :: IsFirstDeviceLine(lines, i) && forall p, q :: !MatchAt(Trim(lines[i]), p, q))
  {
    var lines := Split(reply, '\n');
    match FirstLineWith(lines, DEVICE_NAME, 0)
    case None =>
    case Some(i) =>
      assert IsFirstDeviceLine(lines, i);
      forall j | IsFirstDeviceLine(lines, j) ensures j == i {
        FirstDeviceLineFound(lines, j);
      }
  }
}
