/**
 The Discord channel (internal/alerting/sender_discord.go): what validation measures
 is what is sent.
 */
module DiscordSender {
  import opened Options
  import opened Strings
  import opened CleanList

  datatype DiscordConfig = DiscordConfig(webhookUrl: Text, username: Text, users: seq<Text>, roles: seq<Text>, timeout: int)

  const DEFAULT_TIMEOUT := 10
  const MIN_TIMEOUT := 1
  const MAX_TIMEOUT := 60
  const MAX_MENTIONS := 100
  const MAX_CONTENT := 2000
  const MAX_DESCRIPTION := 4000

  // ---------------------------------------------------------------------
  // Snowflakes
  // ---------------------------------------------------------------------

  /** IDs are compared as written. */
  function Same(t: Text): Text {
    t
  }

  function CleanSnowflakes(ids: seq<Text>): seq<Text> {
    Clean(ids, Same)
  }

  predicate Digit(c: char) {
    '0' <= c <= '9'
  }

  predicate Digits(s: Text) {
    forall i :: 0 <= i < |s| ==> Digit(s[i])
  }

  /** The number a digit string stands for. */
  function Value(s: Text): nat
    requires Digits(s)
  {
    if s == [] then 0 else 10 * Value(s[..|s| - 1]) + (s[|s| - 1] - '0') as nat
  }

  /** What `strconv.ParseUint(id, 10, 64)` accepts. */
  predicate Snowflake(id: Text) {
    id != "" && Digits(id) && Value(id) < 0x1_0000_0000_0000_0000
  }

  predicate ValidSnowflakes(ids: seq<Text>) {
    |ids| <= MAX_MENTIONS && forall i :: 0 <= i < |ids| ==> Snowflake(ids[i])
  }

  // ---------------------------------------------------------------------
  // The mention line
  // ---------------------------------------------------------------------

  datatype Mention = User(id: Text) | Role(id: Text)

  function Token(m: Mention): Text {
    match m
    case User(id) => "<@" + id + ">"
    case Role(id) => "<@&" + id + ">"
  }

  function Users(ids: seq<Text>): (ms: seq<Mention>)
    ensures |ms| == |ids| && forall i :: 0 <= i < |ids| ==> ms[i] == User(ids[i])
  {
    seq(|ids|, i requires 0 <= i < |ids| => User(ids[i]))
  }

  function Roles(ids: seq<Text>): (ms: seq<Mention>)
    ensures |ms| == |ids| && forall i :: 0 <= i < |ids| ==> ms[i] == Role(ids[i])
  {
    seq(|ids|, i requires 0 <= i < |ids| => Role(ids[i]))
  }

  /** Users first, then roles. */
  function Mentions(users: seq<Text>, roles: seq<Text>): seq<Mention> {
    Users(users) + Roles(roles)
  }

  function Tokens(ms: seq<Mention>): (ts: seq<Text>)
    ensures |ts| == |ms| && forall i :: 0 <= i < |ms| ==> ts[i] == Token(ms[i])
  {
    seq(|ms|, i requires 0 <= i < |ms| => Token(ms[i]))
  }

  /** `strings.Join(parts, " ")`. */
  function Join(parts: seq<Text>): Text {
    if parts == [] then "" else if |parts| == 1 then parts[0] else parts[0] + " " + Join(parts[1..])
  }

  function MentionLine(users: seq<Text>, roles: seq<Text>): Text {
    Join(Tokens(Mentions(users, roles)))
  }

  function UserTokens(users: seq<Text>): (ts: seq<Text>)
    ensures |ts| == |users| && forall i :: 0 <= i < |users| ==> ts[i] == Token(User(users[i]))
  {
    seq(|users|, i requires 0 <= i < |users| => Token(User(users[i])))
  }

  function RoleTokens(roles: seq<Text>): (ts: seq<Text>)
    ensures |ts| == |roles| && forall i :: 0 <= i < |roles| ==> ts[i] == Token(Role(roles[i]))
  {
    seq(|roles|, i requires 0 <= i < |roles| => Token(Role(roles[i])))
  }

  lemma TokensAppend(a: seq<Mention>, b: seq<Mention>)
    ensures Tokens(a + b) == Tokens(a) + Tokens(b)
  {
  }

  lemma UsersThenRoles(users: seq<Text>, roles: seq<Text>)
    ensures Tokens(Mentions(users, roles)) == UserTokens(users) + RoleTokens(roles)
  {
    TokensAppend(Users(users), Roles(roles));
    assert Tokens(Users(users)) == UserTokens(users);
    assert Tokens(Roles(roles)) == RoleTokens(roles);
  }

  method RenderUsers(users: seq<Text>) returns (parts: seq<Text>)
    ensures parts == UserTokens(users)
  {
    parts := [];
    for i := 0 to |users|
      invariant |parts| == i && forall k :: 0 <= k < i ==> parts[k] == Token(User(users[k]))
    {
      parts := parts + ["<@" + users[i] + ">"];
    }
  }

  method RenderRoles(roles: seq<Text>) returns (parts: seq<Text>)
    ensures parts == RoleTokens(roles)
  {
    parts := [];
    for i := 0 to |roles|
      invariant |parts| == i && forall k :: 0 <= k < i ==> parts[k] == Token(Role(roles[k]))
    {
      parts := parts + ["<@&" + roles[i] + ">"];
    }
  }

  /** Users first, then roles. */
  method RenderMentionLine(users: seq<Text>, roles: seq<Text>) returns (line: Text)
    ensures line == MentionLine(users, roles)
  {
    UsersThenRoles(users, roles);
    var first := RenderUsers(users);
    var second := RenderRoles(roles);
    return Join(first + second);
  }

  // ---------------------------------------------------------------------
  // Reading the line back
  // ---------------------------------------------------------------------

  /** Splits at every space. */
  function Split(s: Text): (parts: seq<Text>)
    ensures parts != []
  {
    if s == "" then [""]
    else if s[0] == ' ' then [""] + Split(s[1..])
    else [[s[0]] + Split(s[1..])[0]] + Split(s[1..])[1..]
  }

  function ReadToken(s: Text): Option<Mention> {
    if |s| < 4 || s[..2] != "<@" || s[|s| - 1] != '>' then None
    else if s[2] == '&' then Some(Role(s[3..|s| - 1]))
    else Some(User(s[2..|s| - 1]))
  }

  /** What Discord reads in the line. */
  function ReadLine(line: Text): seq<Option<Mention>> {
    if line == "" then [] else ReadParts(Split(line))
  }

  function ReadParts(parts: seq<Text>): (r: seq<Option<Mention>>)
    ensures |r| == |parts| && forall i :: 0 <= i < |parts| ==> r[i] == ReadToken(parts[i])
  {
    seq(|parts|, i requires 0 <= i < |parts| => ReadToken(parts[i]))
  }

  lemma {:induction false} SplitWord(p: Text)
    requires ' ' !in p
    ensures Split(p) == [p]
  {
    if p != "" {
      SplitWord(p[1..]);
      assert [p[0]] + p[1..] == p;
    }
  }

  lemma {:induction false} SplitAfterWord(p: Text, rest: Text)
    requires ' ' !in p
    ensures Split(p + " " + rest) == [p] + Split(rest)
  {
    var s := p + " " + rest;
    if p == "" {
      assert s[0] == ' ' && s[1..] == rest;
    } else {
      assert s[0] == p[0] != ' ' && s[1..] == p[1..] + " " + rest;
      SplitAfterWord(p[1..], rest);
      assert [p[0]] + p[1..] == p;
    }
  }

  lemma {:induction false} SplitJoin(parts: seq<Text>)
    requires parts != [] && forall i :: 0 <= i < |parts| ==> ' ' !in parts[i]
    ensures Split(Join(parts)) == parts
  {
    if |parts| == 1 {
      SplitWord(parts[0]);
    } else {
      SplitJoin(parts[1..]);
      SplitAfterWord(parts[0], Join(parts[1..]));
    }
  }

  lemma TokenRoundTrip(m: Mention)
    requires m.id != "" && Digits(m.id)
    ensures ReadToken(Token(m)) == Some(m) && ' ' !in Token(m)
  {
    var s := Token(m);
    match m
    case User(id) =>
      assert s[2] == id[0] && s[2..|s| - 1] == id;
    case Role(id) =>
      assert s[3..|s| - 1] == id;
  }

  lemma JoinNotEmpty(parts: seq<Text>)
    requires parts != [] && parts[0] != ""
    ensures Join(parts) != ""
  {
  }

  /** The line reads as the users in order, then the roles in order, and nothing else. */
  ghost predicate ReadsAs(line: Text, users: seq<Text>, roles: seq<Text>) {
    && |ReadLine(line)| == |users| + |roles|
    && (forall i :: 0 <= i < |users| ==> ReadLine(line)[i] == Some(User(users[i])))
    && (forall i :: |users| <= i < |users| + |roles| ==> ReadLine(line)[i] == Some(Role(roles[i - |users|])))
  }

  lemma ReadsMentions(users: seq<Text>, roles: seq<Text>)
    requires ValidSnowflakes(users) && ValidSnowflakes(roles)
    ensures var ms := Mentions(users, roles);
            |ReadLine(MentionLine(users, roles))| == |ms|
            && forall i :: 0 <= i < |ms| ==> ReadLine(MentionLine(users, roles))[i] == Some(ms[i])
  {
    var ms := Mentions(users, roles);
    var tokens := Tokens(ms);
    if ms != [] {
      forall i | 0 <= i < |ms| ensures ReadToken(tokens[i]) == Some(ms[i]) && ' ' !in tokens[i] {
        assert ms[i].id != "" && Digits(ms[i].id);
        TokenRoundTrip(ms[i]);
      }
      SplitJoin(tokens);
      JoinNotEmpty(tokens);
    }
  }

  /** The tokens of the line are the allow-listed IDs, one to one and in order. */
  lemma LineRoundTrip(users: seq<Text>, roles: seq<Text>)
    requires ValidSnowflakes(users) && ValidSnowflakes(roles)
    ensures ReadsAs(MentionLine(users, roles), users, roles)
  {
    ReadsMentions(users, roles);
    var ms := Mentions(users, roles);
    assert forall i :: 0 <= i < |users| ==> ms[i] == Users(users)[i];
    assert forall i :: |users| <= i < |ms| ==> ms[i] == Roles(roles)[i - |users|];
  }

  // ---------------------------------------------------------------------
  // Validation and sending
  // ---------------------------------------------------------------------

  predicate UrlOk(url: Text) {
    url != "" && StartsWith(url, "https://") && (Contains(url, "discord.com") || Contains(url, "discordapp.com"))
  }

  predicate Validate(c: DiscordConfig) {
    && UrlOk(Trim(c.webhookUrl))
    && (c.timeout != 0 ==> MIN_TIMEOUT <= c.timeout <= MAX_TIMEOUT)
    && ValidSnowflakes(CleanSnowflakes(c.users)) && ValidSnowflakes(CleanSnowflakes(c.roles))
    && |MentionLine(CleanSnowflakes(c.users), CleanSnowflakes(c.roles))| <= MAX_CONTENT
  }

  function WithDefaults(c: DiscordConfig): DiscordConfig {
    DiscordConfig(Trim(c.webhookUrl), Trim(c.username), CleanSnowflakes(c.users), CleanSnowflakes(c.roles),
                  if c.timeout == 0 then DEFAULT_TIMEOUT else c.timeout)
  }

  function Parse(c: DiscordConfig): Option<DiscordConfig> {
    if Validate(c) then Some(WithDefaults(c)) else None
  }

  /** The parts of the request body that mention anyone; both are absent when no one is mentioned. */
  datatype Payload = Payload(content: Option<Text>, allowedUsers: seq<Text>, allowedRoles: seq<Text>)

  /** A sender fills the defaults again, then posts. */
  method Send(parsed: DiscordConfig) returns (p: Payload)
    ensures var cfg := WithDefaults(parsed);
            var line := MentionLine(cfg.users, cfg.roles);
            p == if line != "" then Payload(Some(line), cfg.users, cfg.roles) else Payload(None, [], [])
  {
    var cfg := WithDefaults(parsed);
    var line := RenderMentionLine(cfg.users, cfg.roles);
    p := Payload(None, [], []);
    if line != "" {
      p := Payload(Some(line), cfg.users, cfg.roles);
    }
  }

  /** Which configurations are accepted, and what becomes of each field. */
  lemma AcceptedExactlyWhen(c: DiscordConfig)
    ensures Parse(c).Some? <==>
              && Trim(c.webhookUrl) != "" && StartsWith(Trim(c.webhookUrl), "https://")
              && (Contains(Trim(c.webhookUrl), "discord.com") || Contains(Trim(c.webhookUrl), "discordapp.com"))
              && 0 <= c.timeout <= 60
              && |CleanSnowflakes(c.users)| <= 100 && |CleanSnowflakes(c.roles)| <= 100
              && (forall i :: 0 <= i < |CleanSnowflakes(c.users)| ==> Snowflake(CleanSnowflakes(c.users)[i]))
              && (forall i :: 0 <= i < |CleanSnowflakes(c.roles)| ==> Snowflake(CleanSnowflakes(c.roles)[i]))
              && |MentionLine(CleanSnowflakes(c.users), CleanSnowflakes(c.roles))| <= 2000
    ensures Parse(c).Some? ==>
              var p := Parse(c).value;
              && p.webhookUrl == Trim(c.webhookUrl) && p.username == Trim(c.username)
              && p.users == CleanSnowflakes(c.users) && p.roles == CleanSnowflakes(c.roles)
              && p.timeout == (if c.timeout == 0 then 10 else c.timeout)
  {
  }

  /** Filling the defaults twice is filling them once. */
  lemma DefaultsTwice(c: DiscordConfig)
    ensures WithDefaults(WithDefaults(c)) == WithDefaults(c)
  {
    TrimTwice(c.webhookUrl);
    TrimTwice(c.username);
    CleanTwice(c.users, Same);
    CleanTwice(c.roles, Same);
  }

  /** A stored configuration parses again, to itself. */
  lemma ParseAgain(c: DiscordConfig)
    requires Parse(c).Some?
    ensures Parse(Parse(c).value) == Parse(c)
  {
    DefaultsTwice(c);
    TrimTwice(c.webhookUrl);
    CleanTwice(c.users, Same);
    CleanTwice(c.roles, Same);
  }

  lemma LineEmptyExactlyWhen(users: seq<Text>, roles: seq<Text>)
    ensures MentionLine(users, roles) == "" <==> users == [] && roles == []
  {
    if |users| + |roles| > 0 {
      JoinNotEmpty(Tokens(Mentions(users, roles)));
    }
  }

  /** No ID twice, each a number of at most 64 bits, at most 100 of them. */
  ghost predicate AllowList(ids: seq<Text>) {
    && ValidSnowflakes(ids)
    && forall i, j :: 0 <= i < j < |ids| ==> ids[i] != ids[j]
  }

  /**
   For every configuration that parses: the line posted is the line that was measured, it fits, the
   allow-lists are lists of distinct numeric IDs, and the tokens read in the line are exactly those IDs.
   */
  method ParseAndSend(c: DiscordConfig) returns (p: Option<Payload>)
    ensures p.Some? <==> Validate(c)
    ensures p.Some? ==>
              var users, roles := CleanSnowflakes(c.users), CleanSnowflakes(c.roles);
              && p.value.allowedUsers == users && p.value.allowedRoles == roles
              && AllowList(users) && AllowList(roles)
              && (p.value.content.None? <==> users == [] && roles == [])
              && (p.value.content.Some? ==>
                    && p.value.content.value == MentionLine(users, roles)
                    && |p.value.content.value| <= MAX_CONTENT
                    && ReadsAs(p.value.content.value, users, roles))
  {
    var parsed := Parse(c);
    if parsed.None? {
      return None;
    }
    var sent := Send(parsed.value);
    DefaultsTwice(c);
    var users, roles := parsed.value.users, parsed.value.roles;
    CleanIsCleaned(c.users, Same);
    CleanIsCleaned(c.roles, Same);
    LineEmptyExactlyWhen(users, roles);
    LineRoundTrip(users, roles);
    return Some(sent);
  }

  // ---------------------------------------------------------------------
  // Distinct as written, distinct as numbers
  // ---------------------------------------------------------------------

  /** Without leading zeros; zero becomes the empty string. */
  function Stripped(s: Text): Text {
    if s != [] && s[0] == '0' then Stripped(s[1..]) else s
  }

  predicate Canonical(s: Text) {
    Digits(s) && (s != [] ==> s[0] != '0')
  }

  lemma {:induction false} CanonicalPositive(s: Text)
    requires Canonical(s) && s != []
    ensures Value(s) > 0
  {
    if |s| > 1 {
      CanonicalPositive(s[..|s| - 1]);
    }
  }

  lemma {:induction false} LeadingZero(s: Text)
    requires Digits(s)
    ensures Value(['0'] + s) == Value(s)
  {
    var z := ['0'] + s;
    if s == [] {
      assert z[..0] == [];
    } else {
      LeadingZero(s[..|s| - 1]);
      assert z[..|z| - 1] == ['0'] + s[..|s| - 1];
    }
  }

  lemma {:induction false} StrippedValue(s: Text)
    requires Digits(s)
    ensures Canonical(Stripped(s)) && Value(Stripped(s)) == Value(s)
  {
    if s != [] && s[0] == '0' {
      StrippedValue(s[1..]);
      LeadingZero(s[1..]);
      assert s == ['0'] + s[1..];
    }
  }

  lemma LastDigit(a: nat, c: char, b: nat, d: char)
    requires Digit(c) && Digit(d) && 10 * a + (c - '0') as nat == 10 * b + (d - '0') as nat
    ensures a == b && c == d
  {
  }

  lemma {:induction false} CanonicalUnique(s: Text, t: Text)
    requires Canonical(s) && Canonical(t) && Value(s) == Value(t)
    ensures s == t
  {
    if s != [] {
      CanonicalPositive(s);
    }
    if t != [] {
      CanonicalPositive(t);
    }
    if s != [] && t != [] {
      var s', t' := s[..|s| - 1], t[..|t| - 1];
      LastDigit(Value(s'), s[|s| - 1], Value(t'), t[|t| - 1]);
      CanonicalUnique(s', t');
      assert s == s' + [s[|s| - 1]] && t == t' + [t[|t| - 1]];
    }
  }

  /** Two IDs are the same number exactly when they agree after their leading zeros. */
  lemma SameNumberExactlyWhen(s: Text, t: Text)
    requires Digits(s) && Digits(t)
    ensures Value(s) == Value(t) <==> Stripped(s) == Stripped(t)
  {
    StrippedValue(s);
    StrippedValue(t);
    if Value(s) == Value(t) {
      CanonicalUnique(Stripped(s), Stripped(t));
    }
  }

  /** No two entries are the same number. */
  ghost predicate NobodyTwice(ids: seq<Text>)
    requires forall i :: 0 <= i < |ids| ==> Digits(ids[i])
  {
    forall i, j :: 0 <= i < j < |ids| ==> Value(ids[i]) != Value(ids[j])
  }

  /** A cleaned list mentions nobody twice exactly when its entries differ after leading zeros. */
  lemma NobodyTwiceExactlyWhen(raw: seq<Text>)
    requires ValidSnowflakes(CleanSnowflakes(raw))
    ensures var ids := CleanSnowflakes(raw);
            NobodyTwice(ids) <==> forall i, j :: 0 <= i < j < |ids| ==> Stripped(ids[i]) != Stripped(ids[j])
  {
    var ids := CleanSnowflakes(raw);
    forall i, j | 0 <= i < j < |ids| ensures Value(ids[i]) == Value(ids[j]) <==> Stripped(ids[i]) == Stripped(ids[j]) {
      SameNumberExactlyWhen(ids[i], ids[j]);
    }
  }

  lemma DigitsTrimmed(s: Text)
    requires s != "" && Digits(s)
    ensures Trim(s) == s
  {
    assert !Blank(s[0]) && !Blank(s[|s| - 1]);
  }

  /** So an ID and the same ID behind a zero are both kept by the cleaning and both allowed. */
  lemma ZeroPrefixedTwin(id: Text)
    requires Snowflake(id)
    ensures var twins := [id, ['0'] + id];
            CleanSnowflakes(twins) == twins && AllowList(twins) && Value(twins[0]) == Value(twins[1])
  {
    LeadingZero(id);
    DigitsTrimmed(id);
    DigitsTrimmed(['0'] + id);
    CleanedIsFixed([id, ['0'] + id], Same);
  }

  // ---------------------------------------------------------------------
  // Truncation
  // ---------------------------------------------------------------------

  /** A text as its characters, each one to four bytes. */
  type Rune = s: seq<char> | 1 <= |s| <= 4 witness "x"

  const ELLIPSIS_BYTES := 3

  function Bytes(s: seq<Rune>): nat {
    if s == [] then 0 else Bytes(s[..|s| - 1]) + |s[|s| - 1]|
  }

  lemma {:induction false} BytesMonotone(s: seq<Rune>, i: nat, j: nat)
    requires i <= j <= |s|
    ensures Bytes(s[..i]) <= Bytes(s[..j])
  {
    if i < j {
      assert s[..j][..j - 1] == s[..j - 1];
      BytesMonotone(s, i, j - 1);
    }
  }

  /** Every prefix within the limit is at most the longest one. */
  lemma LongestPrefix(s: seq<Rune>, keep: nat, k: nat, max: nat)
    requires keep < |s| && k <= |s| && Bytes(s[..k]) <= max < Bytes(s[..keep + 1])
    ensures Bytes(s[..k]) <= Bytes(s[..keep])
  {
    if k <= keep {
      BytesMonotone(s, k, keep);
    } else {
      BytesMonotone(s, keep + 1, k);
    }
  }

  /** The text fits, or the ellipsis fits behind each of its prefixes that does. */
  ghost predicate LimitKept(s: seq<Rune>, max: nat) {
    || Bytes(s) <= max
    || forall k :: 0 <= k <= |s| && Bytes(s[..k]) <= max ==> Bytes(s[..k]) + ELLIPSIS_BYTES <= max
  }

  lemma LimitKeptExactlyWhen(s: seq<Rune>, keep: nat, max: nat)
    requires keep < |s| && Bytes(s[..keep]) <= max < Bytes(s[..keep + 1]) && max < Bytes(s)
    ensures Bytes(s[..keep]) + ELLIPSIS_BYTES <= max <==> LimitKept(s, max)
  {
    forall k | 0 <= k <= |s| && Bytes(s[..k]) <= max ensures Bytes(s[..k]) <= Bytes(s[..keep]) {
      LongestPrefix(s, keep, k, max);
    }
  }

  /**
   Keeps the longest run of whole characters within `max` bytes.  When it cuts, an ellipsis follows
   that is not counted in `max`, so the `length` in bytes can exceed it by the ellipsis.
   */
  method TruncateRunes(s: seq<Rune>, max: nat) returns (keep: nat, truncated: bool, length: nat)
    ensures keep <= |s| && Bytes(s[..keep]) <= max
    ensures truncated <==> Bytes(s) > max
    ensures !truncated ==> keep == |s|
    ensures truncated ==> keep < |s| && Bytes(s[..keep + 1]) > max
    ensures length == Bytes(s[..keep]) + (if truncated then ELLIPSIS_BYTES else 0) <= max + ELLIPSIS_BYTES
    ensures length <= max <==> LimitKept(s, max)
  {
    assert s[..|s|] == s;
    if Bytes(s) <= max {
      return |s|, false, Bytes(s);
    }
    truncated := true;
    keep := 0;
    var at := 0;
    for i := 0 to |s|
      invariant at == Bytes(s[..i])
      invariant keep == (if i == 0 then 0 else i - 1)
      invariant Bytes(s[..keep]) <= max
    {
      if at > max {
        break;
      }
      keep := i;
      assert s[..i + 1][..i] == s[..i];
      at := at + |s[i]|;
    }
    length := Bytes(s[..keep]) + ELLIPSIS_BYTES;
    LimitKeptExactlyWhen(s, keep, max);
  }

  function Plain(n: nat): (s: seq<Rune>)
    ensures |s| == n && forall i :: 0 <= i < n ==> |s[i]| == 1
  {
    seq(n, i requires 0 <= i < n => "x")
  }

  lemma {:induction false} PlainBytes(s: seq<Rune>)
    requires forall i :: 0 <= i < |s| ==> |s[i]| == 1
    ensures Bytes(s) == |s|
  {
    if s != [] {
      PlainBytes(s[..|s| - 1]);
    }
  }

  /** One-byte characters that do not fit always end up over the limit, by the whole ellipsis. */
  lemma PlainTextOverLimit(n: nat, max: nat)
    requires n > max
    ensures !LimitKept(Plain(n), max)
  {
    var s := Plain(n);
    PlainBytes(s);
    PlainBytes(s[..max]);
    assert Bytes(s[..max]) == max;
  }

  /** For instance a description one byte too long. */
  lemma DescriptionOverLimit()
    ensures Bytes(Plain(MAX_DESCRIPTION + 1)) == 4001 && !LimitKept(Plain(MAX_DESCRIPTION + 1), MAX_DESCRIPTION)
  {
    PlainBytes(Plain(MAX_DESCRIPTION + 1));
    PlainTextOverLimit(MAX_DESCRIPTION + 1, MAX_DESCRIPTION);
  }
}
