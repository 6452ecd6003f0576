/** The conversation transcript format of `ChatManager`: a front-matter
    header written once when a chat is created, then one
    "## Message n - Role (...)" block appended per message; and the tolerant
    decoder of `load_chat`, which recovers the messages from the text.

    The decoder in the source is the regular expression
      `## Message \d+ - (User|Assistant)(?: \(([^)]+)\))? \(([^)]+)\)\n(.*?)(?=## Message|\Z)`
    applied with `re.findall` and DOTALL. It is modelled here as the scanner
    that the regex engine amounts to: at each position try to match a header
    line; on success the body runs lazily up to the next "## Message" (or the
    end of the text) and scanning resumes there; on failure move one
    character on. */
module TranscriptFormat {
  import opened Wrappers
  import opened Text

  /** One message of a chat, as `add_message` builds it. */
  datatype Message = Message(role: string, content: string, provider: string, timestamp: string)

  const Marker: string := "## Message"

  // ---------------------------------------------------------------------------
  // Encoder

  /** The `project:` header field: the project id, or "null" when unset. */
  function ProjectField(project: Option<string>): string {
    if Truthy(project) then project.value else "null"
  }

  /** The front matter and title that `create_chat` writes. */
  function Header(id: string, name: string, provider: string, createdAt: string,
                  updatedAt: string, project: Option<string>): string
  {
    "---\n" + "chat_id: " + id + "\n" + "name: " + name + "\n" + "provider: " + provider + "\n"
    + "created_at: " + createdAt + "\n" + "updated_at: " + updatedAt + "\n"
    + "message_count: 0\n" + "project: " + ProjectField(project) + "\n" + "---\n\n"
    + "# Chat: " + name + "\n\n"
  }

  /** `timestamp[:19].replace('T', ' ')`: the time shown in a block header. */
  function Stamp(timestamp: string): (r: string)
    ensures |r| == if |timestamp| < 19 then |timestamp| else 19
    ensures forall i | 0 <= i < |r| :: r[i] == if timestamp[i] == 'T' then ' ' else timestamp[i]
  {
    ReplaceChar(Take(timestamp, 19), 'T', ' ')
  }

  /** The role part of a block header: "User (time)" for user messages,
      "Assistant (provider) (time)" for every other role. */
  function RoleLabel(m: Message): string {
    if m.role == "user" then "User" + Parens(Stamp(m.timestamp))
    else "Assistant" + Parens(m.provider) + Parens(Stamp(m.timestamp))
  }

  /** `" (" + x + ")"`. */
  function Parens(x: string): string {
    " (" + x + ")"
  }

  /** The header line of the block numbered `n`. */
  function HeaderLine(n: nat, m: Message): string {
    "## Message " + (NatToString(n) + (" - " + (RoleLabel(m) + "\n")))
  }

  /** The block `add_message` appends for the message numbered `n`. */
  function EncodeMessage(n: nat, m: Message): string {
    HeaderLine(n, m) + m.content + "\n\n"
  }

  /** The blocks of `ms`, numbered from `n` on. */
  function Blocks(ms: seq<Message>, n: nat): string
    decreases |ms|
  {
    if ms == [] then "" else EncodeMessage(n, ms[0]) + Blocks(ms[1..], n + 1)
  }

  /** The whole file of a chat: its header, then one block per message. */
  function Transcript(header: string, ms: seq<Message>): string {
    header + Blocks(ms, 1)
  }

  // ---------------------------------------------------------------------------
  // Decoder

  /** What the regex captures for one block. */
  datatype Raw = Raw(role: string, provider: string, stamp: string, body: string)

  /** Length of the leading run of decimal digits (`\d+`). */
  function DigitRun(s: string): (n: nat)
    ensures n <= |s|
    ensures forall i :: 0 <= i < n ==> IsDigit(s[i])
    ensures n < |s| ==> !IsDigit(s[n])
  {
    if s == [] || !IsDigit(s[0]) then 0 else 1 + DigitRun(s[1..])
  }

  /** Position of the first ')' in `s`, if any. */
  function CloseIndex(s: string): (r: Option<nat>)
    ensures r.Some? ==> r.value < |s| && s[r.value] == ')'
    ensures r.Some? ==> forall j :: 0 <= j < r.value ==> s[j] != ')'
    ensures r.None? ==> forall j :: 0 <= j < |s| ==> s[j] != ')'
  {
    if s == [] then None
    else if s[0] == ')' then Some(0)
    else match CloseIndex(s[1..])
      case None => None
      case Some(k) => Some(k + 1)
  }

  /** ` \(([^)]+)\)` at the start of `s`: the non-empty text up to the first
      ')' and what follows that ')'. */
  function Paren(s: string): (r: Option<(string, string)>)
    ensures r.Some? ==> |r.value.1| + 3 <= |s|
  {
    if IsPrefix(" (", s) then
      var u := s[2..];
      match CloseIndex(u)
      case Some(k) => if k > 0 then Some((u[..k], u[k + 1..])) else None
      case None => None
    else None
  }

  /** The rest of a header line after its role word: an optional
      " (provider)", then " (time)" and a newline. The regex tries the
      provider group first and falls back to matching without it. Gives the
      provider ("" when the group did not take part), the time and the text
      after the newline. */
  function MatchTail(s: string): (r: Option<(string, string, string)>)
    ensures r.Some? ==> |r.value.2| < |s|
  {
    match Paren(s)
    case None => None
    case Some((a, s1)) =>
      var withProvider :=
        match Paren(s1)
        case Some((b, s2)) => if s2 != [] && s2[0] == '\n' then Some((a, b, s2[1..])) else None
        case None => None;
      if withProvider.Some? then withProvider
      else if s1 != [] && s1[0] == '\n' then Some(("", a, s1[1..]))
      else None
  }

  /** A whole header line `## Message \d+ - (User|Assistant)...\n` at the
      start of `s`: role word, provider, time, and the text after the line. */
  function MatchHeader(s: string): (r: Option<(string, string, string, string)>)
    ensures r.Some? ==> |r.value.3| < |s|
  {
    if !IsPrefix("## Message ", s) then None
    else
      var s1 := s[11..];
      var n := DigitRun(s1);
      var s2 := s1[n..];
      if n == 0 || !IsPrefix(" - ", s2) then None
      else MatchRole(s2[3..])
  }

  /** `(User|Assistant)` and the rest of the header line. */
  function MatchRole(s: string): (r: Option<(string, string, string, string)>)
    ensures r.Some? ==> |r.value.3| < |s|
  {
    var role := if IsPrefix("User", s) then "User" else if IsPrefix("Assistant", s) then "Assistant" else "";
    if role == "" then None
    else match MatchTail(s[|role|..])
      case None => None
      case Some((provider, stamp, rest)) => Some((role, provider, stamp, rest))
  }

  /** Where a lazily matched body ends: the first "## Message" in `s`, or
      the end of the text (the lookahead `(?=## Message|\Z)`). */
  function BodyLength(s: string): (k: nat)
    ensures k <= |s|
  {
    match IndexOf(s, Marker)
    case Some(i) => i
    case None => |s|
  }

  /** `re.findall` of the block pattern over `s`. */
  function Scan(s: string): seq<Raw>
    decreases |s|
  {
    if s == [] then []
    else match MatchHeader(s)
      case Some((role, provider, stamp, rest)) =>
        var k := BodyLength(rest);
        [Raw(role, provider, stamp, rest[..k])] + Scan(rest[k..])
      case None => Scan(s[1..])
  }

  /** One captured block as `load_chat` turns it into a message: the role
      lower-cased, the body stripped, and the chat's provider standing in
      for a missing provider group. */
  function ToMessage(r: Raw, chatProvider: string): Message {
    Message(if r.role == "User" then "user" else "assistant", Strip(r.body),
            if r.provider != "" then r.provider else chatProvider, r.stamp)
  }

  /** The messages `load_chat` recovers from a transcript. There is no
      failing case: text with no matching block gives no messages. */
  function Decode(text: string, chatProvider: string): (ms: seq<Message>)
    ensures |ms| == |Scan(text)|
  {
    var raws := Scan(text);
    seq(|raws|, i requires 0 <= i < |raws| => ToMessage(raws[i], chatProvider))
  }

  // ---------------------------------------------------------------------------
  // Round trip

  /** The conditions under which the block format can be read back: the
      content holds no "## Message", the time shown is non-empty and holds
      no ')', and an assistant block's provider is non-empty with no ')'. */
  predicate Decodable(m: Message) {
    && !Contains(m.content, Marker)
    && Stamp(m.timestamp) != [] && ')' !in Stamp(m.timestamp)
    && (m.role != "user" ==> m.provider != [] && ')' !in m.provider)
  }

  /** What decoding gives back for a message that was appended: the role
      normalised to "user"/"assistant", the content stripped, the provider
      only for assistant blocks (user blocks take the chat's provider), and
      the time as the header shows it. */
  function Recovered(m: Message, chatProvider: string): Message {
    Message(if m.role == "user" then "user" else "assistant", Strip(m.content),
            if m.role == "user" then chatProvider else m.provider, Stamp(m.timestamp))
  }

  /** The capture a decodable block yields. */
  function RawOf(m: Message): Raw {
    Raw(if m.role == "user" then "User" else "Assistant",
        if m.role == "user" then "" else m.provider,
        Stamp(m.timestamp), m.content + "\n\n")
  }

  lemma {:induction false} DigitRunOf(d: string, rest: string)
    requires forall i :: 0 <= i < |d| ==> IsDigit(d[i])
    requires rest != [] && !IsDigit(rest[0])
    ensures DigitRun(d + rest) == |d|
    decreases |d|
  {
    if d != [] {
      assert (d + rest)[1..] == d[1..] + rest;
      DigitRunOf(d[1..], rest);
    } else {
      assert d + rest == rest;
    }
  }

  lemma {:induction false} CloseIndexOf(x: string, rest: string)
    requires ')' !in x
    ensures CloseIndex(x + ")" + rest) == Some(|x|)
    decreases |x|
  {
    var s := x + ")" + rest;
    if x != [] {
      assert s[0] == x[0];
      assert s[1..] == x[1..] + ")" + rest;
      CloseIndexOf(x[1..], rest);
    } else {
      assert s[0] == ')';
    }
  }

  lemma ParenOf(x: string, rest: string)
    requires x != [] && ')' !in x
    ensures Paren(Parens(x) + rest) == Some((x, rest))
  {
    var s := Parens(x) + rest;
    assert s == " (" + (x + ")" + rest);
    Peel(" (", x + ")" + rest);
    var u := s[2..];
    CloseIndexOf(x, rest);
    assert u[..|x|] == x;
    assert u[|x| + 1..] == rest;
  }

  lemma ParenNewline(rest: string)
    ensures Paren("\n" + rest) == None
  {
    var s := "\n" + rest;
    assert s[0] == '\n';
    assert !IsPrefix(" (", s) by {
      if |s| >= 2 { assert s[..2][0] == s[0]; }
    }
  }

  lemma MatchRoleUser(st: string, rest: string)
    requires st != [] && ')' !in st
    ensures MatchRole("User" + Parens(st) + "\n" + rest) == Some(("User", "", st, rest))
  {
    var nl := "\n" + rest;
    var s := "User" + Parens(st) + "\n" + rest;
    assert nl[0] == '\n' && nl[1..] == rest;
    ParenNewline(rest);
    ParenOf(st, nl);
    assert s == "User" + (Parens(st) + nl);
    Peel("User", Parens(st) + nl);
  }

  lemma NotPrefixAt0(p: string, s: string)
    requires p != [] && s != [] && s[0] != p[0]
    ensures !IsPrefix(p, s)
  {
    if |s| >= |p| { assert s[..|p|][0] == s[0]; }
  }

  lemma MatchTailAssistant(pv: string, st: string, rest: string)
    requires st != [] && ')' !in st
    requires pv != [] && ')' !in pv
    ensures MatchTail(Parens(pv) + (Parens(st) + ("\n" + rest))) == Some((pv, st, rest))
  {
    var nl := "\n" + rest;
    assert nl[0] == '\n' && nl[1..] == rest;
    ParenOf(st, nl);
    ParenOf(pv, Parens(st) + nl);
  }

  lemma MatchRoleAssistant(pv: string, st: string, rest: string)
    requires st != [] && ')' !in st
    requires pv != [] && ')' !in pv
    ensures MatchRole("Assistant" + Parens(pv) + Parens(st) + "\n" + rest) == Some(("Assistant", pv, st, rest))
  {
    var tail := Parens(pv) + (Parens(st) + ("\n" + rest));
    var s := "Assistant" + Parens(pv) + Parens(st) + "\n" + rest;
    assert s == "Assistant" + tail;
    Peel("Assistant", tail);
    NotPrefixAt0("User", s);
    MatchTailAssistant(pv, st, rest);
  }

  lemma MatchRoleOf(m: Message, rest: string)
    requires Decodable(m)
    ensures MatchRole(RoleLabel(m) + "\n" + rest)
         == Some((RawOf(m).role, RawOf(m).provider, RawOf(m).stamp, rest))
  {
    if m.role == "user" {
      MatchRoleUser(Stamp(m.timestamp), rest);
    } else {
      MatchRoleAssistant(m.provider, Stamp(m.timestamp), rest);
    }
  }

  /** A decodable block's header line is matched, with the right captures,
      and the text after the line is left for the body. */
  lemma MatchHeaderOf(n: nat, m: Message, rest: string)
    requires Decodable(m)
    ensures MatchHeader(HeaderLine(n, m) + rest)
         == Some((RawOf(m).role, RawOf(m).provider, RawOf(m).stamp, rest))
  {
    var d := NatToString(n);
    var line := RoleLabel(m) + "\n";
    var r3 := line + rest;
    var r2 := " - " + r3;
    Assoc("## Message ", d + (" - " + line), rest);
    Assoc(d, " - " + line, rest);
    Assoc(" - ", line, rest);
    assert HeaderLine(n, m) + rest == "## Message " + (d + r2);
    Peel("## Message ", d + r2);
    DigitRunOf(d, r2);
    Peel(d, r2);
    Peel(" - ", r3);
    MatchRoleOf(m, rest);
  }

  lemma IndexOfNewline(t: string)
    ensures IndexOf(t, Marker).None? ==> IndexOf("\n" + t, Marker).None?
    ensures IndexOf(t, Marker).Some? ==> IndexOf("\n" + t, Marker) == Some(IndexOf(t, Marker).value + 1)
  {
    var u := "\n" + t;
    NotPrefixAt0(Marker, u);
    assert u[1..] == t;
    IndexOfStep(u, Marker);
  }

  /** The body of a decodable block ends where the next block begins. */
  lemma BodyLengthOf(c: string, t: string)
    requires !Contains(c, Marker)
    requires t == [] || IsPrefix(Marker, t)
    ensures BodyLength(c + "\n\n" + t) == |c| + 2
  {
    var u1 := "\n" + t;
    var u := "\n" + u1;
    assert c + "\n\n" + t == c + u;
    IndexOfAfter(c, u, Marker);
    IndexOfNewline(t);
    IndexOfNewline(u1);
  }

  /** Scanning a decodable block captures it and carries on after it. */
  lemma ScanBlock(n: nat, m: Message, t: string)
    requires Decodable(m)
    requires t == [] || IsPrefix(Marker, t)
    ensures Scan(EncodeMessage(n, m) + t) == [RawOf(m)] + Scan(t)
  {
    var body := m.content + "\n\n" + t;
    assert EncodeMessage(n, m) + t == HeaderLine(n, m) + body;
    MatchHeaderOf(n, m, body);
    BodyLengthOf(m.content, t);
    var k := |m.content| + 2;
    assert body[..k] == m.content + "\n\n";
    assert body[k..] == t;
  }

  lemma HeaderLineStart(n: nat, m: Message)
    ensures IsPrefix(Marker, HeaderLine(n, m))
  {
    var r := NatToString(n) + (" - " + (RoleLabel(m) + "\n"));
    assert HeaderLine(n, m) == "## Message " + r;
    assert IsPrefix(Marker, "## Message ");
    PrefixAppend(Marker, "## Message ", r);
  }

  lemma BlocksStart(ms: seq<Message>, n: nat)
    ensures Blocks(ms, n) == [] || IsPrefix(Marker, Blocks(ms, n))
  {
    if ms != [] {
      var h := HeaderLine(n, ms[0]);
      var e := EncodeMessage(n, ms[0]);
      var rest := Blocks(ms[1..], n + 1);
      assert Blocks(ms, n) == e + rest;
      HeaderLineStart(n, ms[0]);
      PrefixAppend(Marker, h, ms[0].content);
      PrefixAppend(Marker, h + ms[0].content, "\n\n");
      PrefixAppend(Marker, e, rest);
    }
  }

  /** The captures of a run of decodable blocks. */
  function RawsOf(ms: seq<Message>): seq<Raw>
    decreases |ms|
  {
    if ms == [] then [] else [RawOf(ms[0])] + RawsOf(ms[1..])
  }

  lemma {:induction false} RawsOfAt(ms: seq<Message>)
    ensures |RawsOf(ms)| == |ms|
    ensures forall i | 0 <= i < |ms| :: RawsOf(ms)[i] == RawOf(ms[i])
    decreases |ms|
  {
    if ms != [] {
      RawsOfAt(ms[1..]);
    }
  }

  lemma {:induction false} ScanBlocks(ms: seq<Message>, n: nat)
    requires forall i :: 0 <= i < |ms| ==> Decodable(ms[i])
    ensures Scan(Blocks(ms, n)) == RawsOf(ms)
    decreases |ms|
  {
    if ms != [] {
      var rest := Blocks(ms[1..], n + 1);
      assert Blocks(ms, n) == EncodeMessage(n, ms[0]) + rest;
      BlocksStart(ms[1..], n + 1);
      ScanBlock(n, ms[0], rest);
      ScanBlocks(ms[1..], n + 1);
    }
  }

  /** A text that does not start with "## Message" does not start a block. */
  lemma NoHeaderAt(s: string)
    requires !IsPrefix(Marker, s)
    ensures MatchHeader(s) == None
  {
    assert ("## Message ")[..10] == Marker;
    if |s| >= 11 {
      assert s[..11][..10] == s[..10];
    }
  }

  /** Scanning skips a leading text that holds no "## Message" and ends with
      a newline, such as the front matter. */
  lemma {:induction false} ScanSkips(a: string, t: string)
    requires !Contains(a, Marker)
    requires a == [] || a[|a| - 1] == '\n'
    ensures Scan(a + t) == Scan(t)
    decreases |a|
  {
    if a == [] {
      assert a + t == t;
    } else {
      var s := a + t;
      assert !IsPrefix(Marker, a);
      assert !IsPrefix(Marker, s) by {
        if |a| >= 10 {
          assert s[..10] == a[..10];
        } else if |s| >= 10 {
          assert s[..10][|a| - 1] == '\n';
        }
      }
      NoHeaderAt(s);
      assert s[1..] == a[1..] + t;
      ScanSkips(a[1..], t);
    }
  }

  /** Appending a message appends exactly its block: earlier blocks are
      never rewritten. */
  lemma {:induction false} BlocksAppend(ms: seq<Message>, m: Message, n: nat)
    ensures Blocks(ms + [m], n) == Blocks(ms, n) + EncodeMessage(n + |ms|, m)
    decreases |ms|
  {
    if ms == [] {
      assert Blocks([m], n) == EncodeMessage(n, m) + Blocks([], n + 1);
    } else {
      var xs := ms + [m];
      assert xs[0] == ms[0] && xs[1..] == ms[1..] + [m];
      var e0, b1, em := EncodeMessage(n, ms[0]), Blocks(ms[1..], n + 1), EncodeMessage(n + |ms|, m);
      BlocksAppend(ms[1..], m, n + 1);
      assert Blocks(xs, n) == e0 + (b1 + em);
      assert Blocks(ms, n) == e0 + b1;
      Assoc(e0, b1, em);
    }
  }

  /** Appending a block to a file whose text is a transcript gives the
      transcript with the message appended. */
  lemma TranscriptAppend(header: string, ms: seq<Message>, m: Message)
    ensures Transcript(header, ms) + EncodeMessage(|ms| + 1, m) == Transcript(header, ms + [m])
  {
    BlocksAppend(ms, m, 1);
  }

  /** Decoding a chat file gives back every appended message, in append
      order, as `Recovered` describes it, provided the header holds no
      "## Message" and ends with a newline, and every message is
      `Decodable`. */
  lemma DecodeTranscript(header: string, ms: seq<Message>, chatProvider: string)
    requires !Contains(header, Marker) && (header == [] || header[|header| - 1] == '\n')
    requires forall i :: 0 <= i < |ms| ==> Decodable(ms[i])
    ensures Decode(Transcript(header, ms), chatProvider)
         == seq(|ms|, i requires 0 <= i < |ms| => Recovered(ms[i], chatProvider))
  {
    ScanSkips(header, Blocks(ms, 1));
    ScanBlocks(ms, 1);
    RawsOfAt(ms);
    var raws := Scan(Transcript(header, ms));
    assert raws == Scan(Blocks(ms, 1));
    forall i | 0 <= i < |ms| ensures ToMessage(raws[i], chatProvider) == Recovered(ms[i], chatProvider) {
      ToMessageRawOf(ms[i], chatProvider);
    }
  }

  /** What the decoder makes of a decodable block's capture. */
  lemma ToMessageRawOf(m: Message, chatProvider: string)
    requires Decodable(m)
    ensures ToMessage(RawOf(m), chatProvider) == Recovered(m, chatProvider)
  {
    StripAppendSpaces(m.content, "\n\n");
  }
}
