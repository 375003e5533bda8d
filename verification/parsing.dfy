/** Turning Discord messages carrying Gatus alert embeds into observations
    (`get_gatus_data` and `parse_gatus_embed`). Message fetching is not
    modelled: the messages are given as a sequence. Timestamps are seconds.
 */
module Parsing {
  import opened Timelines

  datatype Option<T> = None | Some(value: T)

  /** Why an embed could not be read. The source raises in both cases: the
      regular-expression search on a missing description, and the index into
      an empty field list. */
  datatype ParseError = NoDescription | NoFields

  datatype Result<T> = Ok(value: T) | Err(error: ParseError)

  /** An embed as far as the cog reads it: its title, its description and the
      values of its fields, in order. */
  datatype Embed = Embed(title: Option<string>, description: Option<string>, fields: seq<string>)

  /** A message: when it was created and the embeds it carries. */
  datatype Message = Message(createdAt: int, embeds: seq<Embed>)

  /** An embed picked out for parsing, with the message it came from. */
  datatype Candidate = Candidate(embed: Embed, message: Message)

  const GatusMarker: string := ":helmet_with_white_cross: Gatus"
  const UpMarker: string := ":white_check_mark:"
  const AlertPrefix: string := "alert for "
  const AlertSuffix: string := " has been"
  const UnknownName: string := "Unknown"

  // ---------------------------------------------------------------------------
  // Text matching
  // ---------------------------------------------------------------------------

  /** `p` occurs in `s` starting at position `i`. */
  predicate StartsAt(s: string, p: string, i: int) {
    0 <= i && i + |p| <= |s| && s[i..i + |p|] == p
  }

  /** Python's `sub in s`. */
  predicate Contains(s: string, sub: string) {
    exists i | 0 <= i <= |s| - |sub| :: StartsAt(s, sub, i)
  }

  /** No line break: the regular-expression `.` does not match one. */
  predicate NoNewline(s: string) {
    forall k | 0 <= k < |s| :: s[k] != '\n'
  }

  /** The pattern `alert for (.+?) has been` matches at position `i` with a
      group of `n` characters. */
  predicate MatchAt(d: string, i: int, n: int) {
    && 0 <= i && 1 <= n
    && StartsAt(d, AlertPrefix, i)
    && StartsAt(d, AlertSuffix, i + |AlertPrefix| + n)
    && NoNewline(d[i + |AlertPrefix| .. i + |AlertPrefix| + n])
  }

  /** The match `re.search` reports: the leftmost start, and at that start the
      shortest group (the group is lazy). */
  ghost predicate FirstMatch(d: string, i: int, n: int) {
    && MatchAt(d, i, n)
    && (forall j, m :: 0 <= j < i ==> !MatchAt(d, j, m))
    && (forall m :: m < n ==> !MatchAt(d, i, m))
  }

  /** `re.search` reports at most one match. */
  lemma FirstMatchUnique(d: string, i: int, n: int, i': int, n': int)
    requires FirstMatch(d, i, n) && FirstMatch(d, i', n')
    ensures i == i' && n == n'
  {
  }

  /** A line break inside the would-be group rules out every longer group. */
  lemma NewlineBlocks(d: string, i: int, n: int, m: int)
    requires 0 <= i && 1 <= n <= m
    requires i + |AlertPrefix| + n <= |d| && d[i + |AlertPrefix| + n - 1] == '\n'
    ensures !MatchAt(d, i, m)
  {
    var g := i + |AlertPrefix|;
    if g + m <= |d| {
      assert d[g .. g + m][n - 1] == '\n';
    }
  }

  /** Try group lengths n, n+1, ... at start `i`, shortest first. */
  function LazyGroup(d: string, i: int, n: int): (r: Option<int>)
    requires StartsAt(d, AlertPrefix, i) && 1 <= n
    requires i + |AlertPrefix| + n - 1 <= |d|
    requires NoNewline(d[i + |AlertPrefix| .. i + |AlertPrefix| + n - 1])
    ensures r.Some? ==> r.value >= n && MatchAt(d, i, r.value)
                        && forall m :: n <= m < r.value ==> !MatchAt(d, i, m)
    ensures r.None? ==> forall m :: n <= m ==> !MatchAt(d, i, m)
    decreases |d| - n
  {
    var g := i + |AlertPrefix|;
    if g + n > |d| then
      None
    else if d[g + n - 1] == '\n' then
      assert forall m :: n <= m ==> !MatchAt(d, i, m) by {
        forall m | n <= m ensures !MatchAt(d, i, m) {
          NewlineBlocks(d, i, n, m);
        }
      }
      None
    else if StartsAt(d, AlertSuffix, g + n) then
      assert d[g .. g + n] == d[g .. g + n - 1] + [d[g + n - 1]];
      Some(n)
    else
      assert d[g .. g + n] == d[g .. g + n - 1] + [d[g + n - 1]];
      LazyGroup(d, i, n + 1)
  }

  /** Scan start positions from `i` on, leftmost first. */
  function Search(d: string, i: nat): (r: Option<(int, int)>)
    ensures r.Some? ==> && r.value.0 >= i
                        && MatchAt(d, r.value.0, r.value.1)
                        && (forall j, m :: i <= j < r.value.0 ==> !MatchAt(d, j, m))
                        && (forall m :: m < r.value.1 ==> !MatchAt(d, r.value.0, m))
    ensures r.None? ==> forall j, m :: i <= j ==> !MatchAt(d, j, m)
    decreases |d| - i
  {
    if i + |AlertPrefix| > |d| then
      None
    else if StartsAt(d, AlertPrefix, i) then
      match LazyGroup(d, i, 1)
      case Some(n) => Some((i, n))
      case None => Search(d, i + 1)
    else
      Search(d, i + 1)
  }

  /** The service name in an alert description: the group of the first match
      of `alert for (.+?) has been`, or "Unknown" when there is none. */
  function LabberName(d: string): (name: string)
    ensures || (exists i, n :: FirstMatch(d, i, n) && name == d[i + |AlertPrefix| .. i + |AlertPrefix| + n])
            || ((forall i, n :: !MatchAt(d, i, n)) && name == UnknownName)
  {
    match Search(d, 0)
    case Some((i, n)) =>
      assert FirstMatch(d, i, n);
      d[i + |AlertPrefix| .. i + |AlertPrefix| + n]
    case None => UnknownName
  }

  /** A slice of a slice is a slice of the whole. */
  lemma SliceOfSlice(s: string, a: int, b: int, c: int, e: int)
    requires 0 <= a <= b <= |s| && 0 <= c <= e <= b - a
    ensures s[a .. b][c .. e] == s[a + c .. a + e]
  {
    assert forall k :: 0 <= k < e - c ==> s[a .. b][c .. e][k] == s[a + c + k];
  }

  /** The pieces of an alert sentence sit where they were put. */
  lemma SentencePieces(before: string, name: string, after: string)
    ensures var d := before + AlertPrefix + name + AlertSuffix + after;
            var g := |before| + |AlertPrefix|;
            && d[|before| .. g] == AlertPrefix
            && d[g .. g + |name|] == name
            && d[g .. g + |name| + |AlertSuffix|] == name + AlertSuffix
  {
    var d := before + AlertPrefix + name + AlertSuffix + after;
    var g := |before| + |AlertPrefix|;
    assert d == (before + AlertPrefix) + (name + AlertSuffix) + after;
    assert d[|before| .. g] == AlertPrefix;
    assert d[g .. g + |name| + |AlertSuffix|] == name + AlertSuffix;
    assert (name + AlertSuffix)[..|name|] == name;
  }

  /** Inside `d`, the text after a group of `m` characters begins with
      " has been" only where it does so inside the name followed by " has been". */
  lemma NoShorterGroup(d: string, i: int, name: string)
    requires 0 <= i && |name| >= 1
    requires StartsAt(d, name + AlertSuffix, i + |AlertPrefix|)
    requires forall m :: 1 <= m < |name| ==> !StartsAt(name + AlertSuffix, AlertSuffix, m)
    ensures forall m :: m < |name| ==> !MatchAt(d, i, m)
  {
    var g := i + |AlertPrefix|;
    var tail := name + AlertSuffix;
    forall m | m < |name| ensures !MatchAt(d, i, m) {
      if 1 <= m {
        SliceOfSlice(d, g, g + |tail|, m, m + |AlertSuffix|);
        assert !StartsAt(tail, AlertSuffix, m);
      }
    }
  }

  /** An alert sentence built from a one-line name is read back as that
      name, provided " has been" does not already occur inside the name (so
      no shorter group ends there) and no earlier "alert for " in the text
      before it leads to a match. */
  lemma LabberNameRoundTrip(before: string, name: string, after: string)
    requires |name| >= 1 && NoNewline(name)
    requires forall m :: 1 <= m < |name| ==> !StartsAt(name + AlertSuffix, AlertSuffix, m)
    requires forall j, m :: 0 <= j < |before| ==> !MatchAt(before + AlertPrefix + name + AlertSuffix + after, j, m)
    ensures LabberName(before + AlertPrefix + name + AlertSuffix + after) == name
  {
    var d := before + AlertPrefix + name + AlertSuffix + after;
    var i := |before|;
    var g := i + |AlertPrefix|;
    SentencePieces(before, name, after);
    assert StartsAt(d, AlertPrefix, i);
    assert StartsAt(d, name + AlertSuffix, g);
    assert StartsAt(d, AlertSuffix, g + |name|) by {
      assert d[g + |name| .. g + |name| + |AlertSuffix|] == (name + AlertSuffix)[|name| ..];
    }
    assert MatchAt(d, i, |name|);
    NoShorterGroup(d, i, name);
    assert FirstMatch(d, i, |name|);
    var r := LabberName(d);
    var i', n' :| FirstMatch(d, i', n') && r == d[i' + |AlertPrefix| .. i' + |AlertPrefix| + n'];
    FirstMatchUnique(d, i, |name|, i', n');
  }

  /** A description without "alert for " names the service "Unknown". */
  lemma UnknownWithoutAlertPhrase(d: string)
    requires !Contains(d, AlertPrefix)
    ensures LabberName(d) == UnknownName
  {
    forall i, n ensures !MatchAt(d, i, n) {
      assert !StartsAt(d, AlertPrefix, i);
    }
  }

  // ---------------------------------------------------------------------------
  // Embeds and messages
  // ---------------------------------------------------------------------------

  /** `parse_gatus_embed`: name from the description, date from the message,
      status up exactly when the first field shows the check mark. */
  function ParseGatusEmbed(embed: Embed, message: Message): (r: Result<GatusData>)
    ensures r.Ok? <==> embed.description.Some? && |embed.fields| > 0
    ensures embed.description.None? ==> r == Err(NoDescription)
    ensures embed.description.Some? && |embed.fields| == 0 ==> r == Err(NoFields)
    ensures r.Ok? ==> && r.value.date == message.createdAt
                      && r.value.status == Contains(embed.fields[0], UpMarker)
                      && r.value.labber == LabberName(embed.description.value)
  {
    match embed.description
    case None => Err(NoDescription)
    case Some(d) =>
      var name := LabberName(d);
      if |embed.fields| == 0 then Err(NoFields)
      else Ok(GatusData(name, message.createdAt, Contains(embed.fields[0], UpMarker)))
  }

  /** The embed's title carries the Gatus marker (a missing title does not). */
  predicate IsGatusAlert(embed: Embed) {
    embed.title.Some? && Contains(embed.title.value, GatusMarker)
  }

  /** The Gatus embeds among `embeds`, in order, paired with their message. */
  function AlertsIn(message: Message, embeds: seq<Embed>): (r: seq<Candidate>)
    ensures |r| <= |embeds|
    ensures forall k :: 0 <= k < |r| ==> r[k].message == message && IsGatusAlert(r[k].embed) && r[k].embed in embeds
    ensures forall e :: e in embeds && IsGatusAlert(e) ==> Candidate(e, message) in r
  {
    if embeds == [] then []
    else (if IsGatusAlert(embeds[0]) then [Candidate(embeds[0], message)] else [])
         + AlertsIn(message, embeds[1..])
  }

  /** One embed is picked, paired with its message, exactly when it is a
      Gatus alert. */
  lemma AlertsInOne(message: Message, e: Embed)
    ensures AlertsIn(message, [e]) == if IsGatusAlert(e) then [Candidate(e, message)] else []
  {
    assert [e][1..] == [];
  }

  /** Picking distributes over concatenation: within a message the picked
      embeds keep their order, and each Gatus embed is picked once per
      occurrence. */
  lemma {:induction false} AlertsInConcat(message: Message, x: seq<Embed>, y: seq<Embed>)
    ensures AlertsIn(message, x + y) == AlertsIn(message, x) + AlertsIn(message, y)
  {
    if x != [] {
      var xy := x + y;
      assert xy[0] == x[0];
      assert xy[1..] == x[1..] + y;
      var head := if IsGatusAlert(x[0]) then [Candidate(x[0], message)] else [];
      assert AlertsIn(message, xy) == head + AlertsIn(message, x[1..] + y);
      assert AlertsIn(message, x) == head + AlertsIn(message, x[1..]);
      AlertsInConcat(message, x[1..], y);
      assert head + (AlertsIn(message, x[1..]) + AlertsIn(message, y))
             == (head + AlertsIn(message, x[1..])) + AlertsIn(message, y);
    } else {
      assert x + y == y;
    }
  }

  /** The picked embeds of one message are those of the message alone. */
  lemma AlertsOne(m: Message)
    ensures Alerts([m]) == AlertsIn(m, m.embeds)
  {
    assert [m][1..] == [];
    assert AlertsIn(m, m.embeds) + [] == AlertsIn(m, m.embeds);
  }

  /** The Gatus embeds of all messages, message by message, embed by embed. */
  function Alerts(messages: seq<Message>): (r: seq<Candidate>)
    ensures forall k :: 0 <= k < |r| ==>
              r[k].message in messages && r[k].embed in r[k].message.embeds && IsGatusAlert(r[k].embed)
    ensures forall m, e :: m in messages && e in m.embeds && IsGatusAlert(e) ==> Candidate(e, m) in r
  {
    if messages == [] then []
    else AlertsIn(messages[0], messages[0].embeds) + Alerts(messages[1..])
  }

  /** Parse every candidate in order, stopping at the first failure. */
  function ParseAll(cs: seq<Candidate>): (r: Result<seq<GatusData>>)
    ensures r.Ok? <==> forall k :: 0 <= k < |cs| ==> ParseGatusEmbed(cs[k].embed, cs[k].message).Ok?
    ensures r.Ok? ==> |r.value| == |cs|
                      && forall k :: 0 <= k < |cs| ==>
                           r.value[k] == ParseGatusEmbed(cs[k].embed, cs[k].message).value
    ensures r.Err? ==> exists k :: && 0 <= k < |cs|
                                   && ParseGatusEmbed(cs[k].embed, cs[k].message) == Err(r.error)
                                   && forall j :: 0 <= j < k ==> ParseGatusEmbed(cs[j].embed, cs[j].message).Ok?
  {
    if cs == [] then Ok([])
    else
      match ParseGatusEmbed(cs[0].embed, cs[0].message)
      case Err(e) => Err(e)
      case Ok(o) =>
        match ParseAll(cs[1..])
        case Err(e) => Err(e)
        case Ok(os) => Ok([o] + os)
  }

  /** `get_gatus_data`: one observation per Gatus embed, in message and embed
      order; a Gatus embed that cannot be read aborts the whole collection. */
  function GetGatusData(messages: seq<Message>): (r: Result<seq<GatusData>>)
    ensures r.Ok? ==> |r.value| == |Alerts(messages)|
    ensures r.Ok? ==> forall k :: 0 <= k < |r.value| ==>
                        exists m :: m in messages && r.value[k].date == m.createdAt
  {
    ParseAll(Alerts(messages))
  }

  /** Later messages' alerts come after earlier messages' alerts. */
  lemma {:induction false} AlertsConcat(a: seq<Message>, b: seq<Message>)
    ensures Alerts(a + b) == Alerts(a) + Alerts(b)
  {
    if a != [] {
      assert (a + b)[0] == a[0];
      assert (a + b)[1..] == a[1..] + b;
      AlertsConcat(a[1..], b);
      var head := AlertsIn(a[0], a[0].embeds);
      assert head + (Alerts(a[1..]) + Alerts(b)) == (head + Alerts(a[1..])) + Alerts(b);
    } else {
      assert a + b == b;
    }
  }

  /** Parsing a concatenation parses the first part, then the second, and
      fails with the first failure. */
  lemma {:induction false} ParseAllConcat(x: seq<Candidate>, y: seq<Candidate>)
    ensures ParseAll(x + y) == match ParseAll(x)
                               case Err(e) => Err(e)
                               case Ok(os) => (match ParseAll(y)
                                               case Err(e) => Err(e)
                                               case Ok(ps) => Ok(os + ps))
  {
    if x != [] {
      assert (x + y)[0] == x[0];
      assert (x + y)[1..] == x[1..] + y;
      ParseAllConcat(x[1..], y);
      match ParseAll(x[1..]) {
        case Err(e) =>
        case Ok(os) =>
          match ParseAll(y) {
            case Err(e) =>
            case Ok(ps) =>
              var o := ParseGatusEmbed(x[0].embed, x[0].message);
              if o.Ok? {
                assert [o.value] + (os + ps) == ([o.value] + os) + ps;
              }
          }
      }
    } else {
      assert x + y == y;
      match ParseAll(y) {
        case Err(e) =>
        case Ok(ps) => assert [] + ps == ps;
      }
    }
  }

  /** Collecting from two batches of messages is collecting from the first,
      then from the second: observations keep message order. */
  lemma GetGatusDataConcat(a: seq<Message>, b: seq<Message>)
    ensures GetGatusData(a + b) == match GetGatusData(a)
                                   case Err(e) => Err(e)
                                   case Ok(os) => (match GetGatusData(b)
                                                   case Err(e) => Err(e)
                                                   case Ok(ps) => Ok(os + ps))
  {
    AlertsConcat(a, b);
    ParseAllConcat(Alerts(a), Alerts(b));
  }

  /** A single message yields one observation per Gatus embed, in embed
      order, each dated by the message. */
  lemma GetGatusDataOneMessage(m: Message)
    ensures GetGatusData([m]).Ok? ==>
              && |GetGatusData([m]).value| == |AlertsIn(m, m.embeds)|
              && forall k :: 0 <= k < |GetGatusData([m]).value| ==>
                   GetGatusData([m]).value[k].date == m.createdAt
  {
    assert [m][1..] == [];
    assert Alerts([m]) == AlertsIn(m, m.embeds) + [];
  }
}
