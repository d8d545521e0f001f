/** Which events the chain accepts: tokens, names and times written out, times as the printed form of a date. */
module AuditEvents {
  import opened Text
  import opened AuditChain

  // ----- times

  /** A civil time in UTC; the fraction holds the digits after the point. */
  datatype Civil = Civil(year: nat, month: nat, day: nat, hour: nat, minute: nat, second: nat, fraction: string)

  const MONTHS: seq<nat> := [31, 28, 31, 30, 31, 30, 31, 31, 30, 31, 30, 31]

  function LastDay(year: nat, month: nat): nat
    requires 1 <= month <= 12
  {
    var leap := year % 400 == 0 || (year % 4 == 0 && year % 100 != 0);
    if leap && month == 2 then 29 else MONTHS[month - 1]
  }

  predicate Proper(t: Civil) {
    && t.year <= 9999 && 1 <= t.month <= 12 && 1 <= t.day <= LastDay(t.year, t.month)
    && t.hour <= 23 && t.minute <= 59 && t.second <= 59 && ProperFraction(t.fraction)
  }

  /** No digits, or at most nine of which the last is not 0. */
  predicate ProperFraction(s: string) {
    (s == "" || (|s| <= 9 && s[|s| - 1] != '0')) && forall i :: 0 <= i < |s| ==> '0' <= s[i] <= '9'
  }

  function Tens(n: nat): char
    requires n < 100
  {
    DigitChar(n / 10)
  }

  function Ones(n: nat): char {
    DigitChar(n % 10)
  }

  /** The date and time, to the second. */
  function Printed(t: Civil): string
    requires Proper(t)
  {
    [Tens(t.year / 100), Ones(t.year / 100), Tens(t.year % 100), Ones(t.year % 100), '-',
     Tens(t.month), Ones(t.month), '-', Tens(t.day), Ones(t.day), 'T', Tens(t.hour), Ones(t.hour), ':',
     Tens(t.minute), Ones(t.minute), ':', Tens(t.second), Ones(t.second)]
  }

  function Stamp(t: Civil): string
    requires Proper(t)
  {
    Printed(t) + Ending(t.fraction)
  }

  function Ending(fraction: string): string {
    if fraction == "" then "Z" else ['.'] + fraction + ['Z']
  }

  // Reading it back, two digits at a time.

  predicate TwoAt(s: string, at: nat, n: nat)
    requires at + 1 < |s| && n < 100
  {
    s[at] == Tens(n) && s[at + 1] == Ones(n)
  }

  predicate Separated(s: string)
    requires |s| >= 19
  {
    s[4] == '-' && s[7] == '-' && s[10] == 'T' && s[13] == ':' && s[16] == ':'
  }

  predicate Spells(s: string, t: Civil)
    requires Proper(t) && |s| >= 19
  {
    && TwoAt(s, 0, t.year / 100) && TwoAt(s, 2, t.year % 100) && TwoAt(s, 5, t.month) && TwoAt(s, 8, t.day)
    && TwoAt(s, 11, t.hour) && TwoAt(s, 14, t.minute) && TwoAt(s, 17, t.second) && Separated(s)
  }

  lemma PrintedSpells(s: string, t: Civil)
    requires Proper(t) && |s| >= 19 && s[..19] == Printed(t)
    ensures Spells(s, t)
  {
    var p := Printed(t);
    assert forall i :: 0 <= i < 19 ==> s[i] == p[i];
    assert TwoAt(p, 0, t.year / 100) && TwoAt(p, 2, t.year % 100) && TwoAt(p, 5, t.month) && TwoAt(p, 8, t.day);
    assert TwoAt(p, 11, t.hour) && TwoAt(p, 14, t.minute) && TwoAt(p, 17, t.second) && Separated(p);
  }

  lemma SpelledIsPrinted(s: string, t: Civil)
    requires Proper(t) && |s| >= 19 && Spells(s, t)
    ensures s[..19] == Printed(t)
  {
    var p, q := Printed(t), s[..19];
    assert p[0] == q[0] && p[1] == q[1] && p[2] == q[2] && p[3] == q[3] && p[4] == q[4] && p[5] == q[5];
    assert p[6] == q[6] && p[7] == q[7] && p[8] == q[8] && p[9] == q[9] && p[10] == q[10] && p[11] == q[11];
    assert p[12] == q[12] && p[13] == q[13] && p[14] == q[14] && p[15] == q[15] && p[16] == q[16];
    assert p[17] == q[17] && p[18] == q[18];
  }

  lemma TwoDigitsAt(s: string, at: nat, n: nat)
    requires at + 1 < |s| && n < 100
    ensures TwoAt(s, at, n) <==> TwoDigits(s, at) == n && Digit(s[at]) && Digit(s[at + 1])
  {
  }

  predicate TwoDigitsIn(s: string, at: nat)
    requires at + 1 < |s|
  {
    Digit(s[at]) && Digit(s[at + 1])
  }

  /** The first nineteen bytes are digits and separators in their places. */
  lemma DigitsInPlace(s: string)
    requires |s| >= 19
    ensures (forall i :: 0 <= i < 19 && i !in {4, 7, 10, 13, 16} ==> Digit(s[i])) <==>
      && TwoDigitsIn(s, 0) && TwoDigitsIn(s, 2) && TwoDigitsIn(s, 5) && TwoDigitsIn(s, 8) && TwoDigitsIn(s, 11)
      && TwoDigitsIn(s, 14) && TwoDigitsIn(s, 17)
  {
  }

  lemma DaysAreLastDays(year: nat, month: nat)
    requires 1 <= month <= 12
    ensures DaysIn(year, month) == LastDay(year, month)
  {
    FourHundredths(year);
  }

  lemma FourHundredths(year: nat)
    ensures year % 400 == 0 ==> year % 4 == 0
  {
    assert year % 400 == 0 ==> year == 4 * (100 * (year / 400));
  }

  predicate TailCanonical(s: string)
    requires |s| >= 19
  {
    && 20 <= |s| <= 30 && s[|s| - 1] == 'Z'
    && (|s| == 20 || (|s| >= 22 && s[19] == '.' && s[|s| - 2] != '0' && forall i :: 20 <= i < |s| - 1 ==> Digit(s[i])))
  }

  lemma CanonicalParts(s: string)
    requires |s| >= 19
    ensures CanonicalUtc(s) <==>
      && TailCanonical(s) && (forall i :: 0 <= i < 19 && i !in {4, 7, 10, 13, 16} ==> Digit(s[i])) && Separated(s)
      && 1 <= TwoDigits(s, 5) <= 12
      && 1 <= TwoDigits(s, 8) <= DaysIn(TwoDigits(s, 0) * 100 + TwoDigits(s, 2), TwoDigits(s, 5))
      && TwoDigits(s, 11) < 24 && TwoDigits(s, 14) < 60 && TwoDigits(s, 17) < 60
  {
  }

  lemma SpelledIsCanonical(s: string, t: Civil)
    requires Proper(t) && |s| >= 19 && Spells(s, t) && TailCanonical(s)
    ensures CanonicalUtc(s)
  {
    TwoDigitsAt(s, 0, t.year / 100);
    TwoDigitsAt(s, 2, t.year % 100);
    TwoDigitsAt(s, 5, t.month);
    TwoDigitsAt(s, 8, t.day);
    TwoDigitsAt(s, 11, t.hour);
    TwoDigitsAt(s, 14, t.minute);
    TwoDigitsAt(s, 17, t.second);
    DigitsInPlace(s);
    DaysAreLastDays(t.year, t.month);
    CanonicalParts(s);
  }

  lemma CanonicalIsSpelled(s: string, fraction: string) returns (t: Civil)
    requires CanonicalUtc(s) && ProperFraction(fraction)
    ensures Proper(t) && Spells(s, t) && t.fraction == fraction
  {
    DigitsInPlace(s);
    var hundreds, years := TwoDigits(s, 0), TwoDigits(s, 2);
    var year := hundreds * 100 + years;
    t := Civil(year, TwoDigits(s, 5), TwoDigits(s, 8), TwoDigits(s, 11), TwoDigits(s, 14), TwoDigits(s, 17), fraction);
    DaysAreLastDays(year, t.month);
    TwoDigitsAt(s, 0, hundreds);
    TwoDigitsAt(s, 2, years);
    TwoDigitsAt(s, 5, t.month);
    TwoDigitsAt(s, 8, t.day);
    TwoDigitsAt(s, 11, t.hour);
    TwoDigitsAt(s, 14, t.minute);
    TwoDigitsAt(s, 17, t.second);
  }

  lemma TailPrinted(s: string, fraction: string)
    requires |s| >= 19 && ProperFraction(fraction) && s[19..] == Ending(fraction)
    ensures TailCanonical(s)
  {
    var tail := s[19..];
    assert forall i :: 19 <= i < |s| ==> s[i] == tail[i - 19];
  }

  lemma TailRead(s: string) returns (fraction: string)
    requires |s| >= 19 && TailCanonical(s)
    ensures ProperFraction(fraction) && s[19..] == Ending(fraction)
  {
    fraction := if |s| == 20 then "" else s[20..|s| - 1];
  }

  lemma StampIsCanonical(t: Civil)
    requires Proper(t)
    ensures CanonicalUtc(Stamp(t))
  {
    var s := Stamp(t);
    assert s[..19] == Printed(t) && s[19..] == Ending(t.fraction);
    PrintedSpells(s, t);
    TailPrinted(s, t.fraction);
    SpelledIsCanonical(s, t);
  }

  lemma CanonicalIsStamp(s: string) returns (t: Civil)
    requires CanonicalUtc(s)
    ensures Proper(t) && Stamp(t) == s
  {
    var fraction := CanonicalEnding(s);
    t := CanonicalIsSpelled(s, fraction);
    StampOfSpelled(s, t);
  }

  lemma CanonicalEnding(s: string) returns (fraction: string)
    requires CanonicalUtc(s)
    ensures ProperFraction(fraction) && s[19..] == Ending(fraction)
  {
    CanonicalParts(s);
    fraction := TailRead(s);
  }

  lemma StampOfSpelled(s: string, t: Civil)
    requires Proper(t) && |s| >= 19 && Spells(s, t) && s[19..] == Ending(t.fraction)
    ensures Stamp(t) == s
  {
    SpelledIsPrinted(s, t);
    assert s == s[..19] + s[19..];
  }

  /** A time is canonical exactly when it is the stamp of a proper date. */
  lemma CanonicalExactly(s: string)
    ensures CanonicalUtc(s) <==> exists t :: Proper(t) && Stamp(t) == s
  {
    if CanonicalUtc(s) {
      var t := CanonicalIsStamp(s);
      assert Proper(t) && Stamp(t) == s;
    }
    if t :| Proper(t) && Stamp(t) == s {
      StampIsCanonical(t);
    }
  }

  // ----- names and tokens

  predicate Lower(c: char) { 'a' <= c <= 'z' }

  predicate FirstName(s: string) {
    s != "" && Lower(s[0]) && forall c :: c in s ==> Lower(c) || '0' <= c <= '9'
  }

  predicate NextName(s: string) {
    s != "" && Lower(s[0]) && forall c :: c in s ==> Lower(c) || '0' <= c <= '9' || c == '-'
  }

  /** An event type is a name followed by one to five more, each after a dot. */
  lemma EventTypeIsExact(s: string)
    ensures ValidEventType(s) <==>
      && |s| <= 96
      && exists first, rest :: s == JoinWith([first] + rest, '.') && TypeNames(first, rest)
  {
    if ValidEventType(s) {
      var parts := SplitOn(s, '.');
      JoinAfterSplit(s, '.');
      assert parts == [parts[0]] + parts[1..];
      NamesAreExact(parts[0]);
      forall i | 1 <= i < |parts| ensures NextName(parts[i]) {
        NamesAreExact(parts[i]);
      }
      assert TypeNames(parts[0], parts[1..]);
    }
    if first, rest :| s == JoinWith([first] + rest, '.') && TypeNames(first, rest) {
      var parts := [first] + rest;
      forall i | 0 <= i < |parts| ensures '.' !in parts[i] && LowerName(parts[i], i > 0) {
        assert parts[i] == if i == 0 then first else rest[i - 1];
        NamesAreExact(parts[i]);
      }
      SplitAfterJoin(parts, '.');
    }
  }

  predicate TypeNames(first: string, rest: seq<string>) {
    FirstName(first) && 1 <= |rest| <= 5 && forall i :: 0 <= i < |rest| ==> NextName(rest[i])
  }

  lemma NamesAreExact(s: string)
    ensures LowerName(s, false) <==> FirstName(s)
    ensures LowerName(s, true) <==> NextName(s)
  {
    assert forall i :: 0 <= i < |s| ==> s[i] in s;
  }

  function Lowered(s: string): string {
    seq(|s|, i requires 0 <= i < |s| => if 'A' <= s[i] <= 'Z' then s[i] - 'A' + 'a' else s[i])
  }

  /** The texts that mark a credential, whatever their case. */
  const SECRETS: set<string> :=
    {"github_pat_", "ghp_", "gho_", "ghu_", "ghs_", "ghr_", "sk-", "xoxb-", "xoxp-", "akia"}

  lemma LowerPrefixIsExact(s: string, prefix: string)
    ensures HasLowerPrefix(s, prefix) <==> prefix <= Lowered(s)
  {
    assert forall i :: 0 <= i < |s| ==> Lowered(s)[i] == LowerChar(s[i]);
  }

  predicate Alphanumeric(c: char) { Lower(c) || 'A' <= c <= 'Z' || '0' <= c <= '9' }

  /** A token begins with a letter or digit, goes on with these and four marks, and does not begin like a credential. */
  lemma TokenIsExact(s: string, maximum: nat)
    ensures ValidToken(s, maximum) <==>
      && 1 <= |s| <= maximum && Alphanumeric(s[0])
      && (forall c :: c in s ==> Alphanumeric(c) || c in {'.', '_', ':', '-'})
      && forall prefix :: prefix in SECRETS ==> !(prefix <= Lowered(s))
  {
    assert forall i :: 0 <= i < |s| ==> s[i] in s;
    NoSecretIsExact(s);
  }

  lemma NoSecretIsExact(s: string)
    ensures (forall i :: 0 <= i < |SECRET_PREFIXES| ==> !HasLowerPrefix(s, SECRET_PREFIXES[i])) <==>
      forall prefix :: prefix in SECRETS ==> !(prefix <= Lowered(s))
  {
    forall i | 0 <= i < |SECRET_PREFIXES|
      ensures SECRET_PREFIXES[i] in SECRETS
      ensures HasLowerPrefix(s, SECRET_PREFIXES[i]) <==> SECRET_PREFIXES[i] <= Lowered(s)
    {
      LowerPrefixIsExact(s, SECRET_PREFIXES[i]);
    }
    forall prefix | prefix in SECRETS ensures exists i :: 0 <= i < |SECRET_PREFIXES| && SECRET_PREFIXES[i] == prefix {
      assert prefix in SECRET_PREFIXES;
    }
  }

  // ----- events and links

  predicate TokenIfSet(value: Option<string>, maximum: nat) {
    value.None? || ValidToken(value.value, maximum)
  }

  /** A link is made exactly of a well-formed event and context; it carries them, its place and its own digest. */
  lemma LinkIsMadeExactly(h: Hasher, e: Event, ids: ContextIDs, instanceID: string, sequence: int, previous: string,
                          preAnchor: bool)
    ensures var made := MakeChainLink(h, e, ids, instanceID, sequence, previous, preAnchor);
      made.Some? <==>
        && e.schema == "vegastack-labs.dev/audit-event" && e.schemaVersion == "1.0.0" && 1 <= e.eventID
        && 0 <= e.recoveryEpoch && 0 <= e.stateRevision && CanonicalUtc(e.occurredAt) && ValidEventType(e.eventType)
        && ValidToken(e.correlationID, 128) && ValidToken(e.target.kind, 64) && ValidToken(e.target.id, 128)
        && ValidToken(e.principalID, 128) && ValidToken(e.principalMethod, 64) && TokenIfSet(e.humanID, 128)
        && TokenIfSet(e.agentName, 64) && TokenIfSet(e.agentSessionID, 128)
        && e.agentSource == (if e.agentName.Some? then Some("self-reported") else None)
        && (e.agentName.Some? <==> e.agentSessionID.Some?)
        && (e.causationID.Some? ==> 1 <= e.causationID.value) && (e.correctionOf.Some? ==> 1 <= e.correctionOf.value)
        && (e.before.Some? ==> ValidFingerprint(e.before.value)) && (e.after.Some? ==> ValidFingerprint(e.after.value))
        && (forall id :: id in {ids.runID, ids.planID, ids.providerNativeID} ==> id == "" || ValidToken(id, 128))
        && ValidToken(instanceID, 128) && 1 <= sequence && ValidFingerprint(previous)
    ensures var made := MakeChainLink(h, e, ids, instanceID, sequence, previous, preAnchor);
      var payload, context := h(EventDoc(e)), h(ContextDoc(ids));
      made.Some? ==>
        made.value == ChainLink(
          instanceID, e.recoveryEpoch, e.eventID, sequence, previous, payload, context, ids,
          h(LinkDoc(instanceID, e.recoveryEpoch, e.eventID, sequence, previous, payload, context, preAnchor)),
          preAnchor, "", "")
  {
  }

  /** A range of links has a digest exactly when it is not empty, its ids are positive and ascend throughout, and every
      link digest is one; it is the hash of first id, last id and all link digests in order. */
  lemma RangeIsExact(h: Hasher, links: seq<ChainLink>, digest: string)
    ensures RangeDigest(h, links) == Some(digest) <==>
      && links != [] && 1 <= links[0].eventID && Ascending(links)
      && (forall l :: l in links ==> ValidFingerprint(l.linkDigest))
      && digest == h(RangeDoc(links[0].eventID, links[|links| - 1].eventID, Digests(links)))
  {
    AscendingExactly(links);
    assert forall i :: 0 <= i < |links| ==> links[i] in links;
    if links != [] && Ascending(links) && 1 <= links[0].eventID {
      forall i | 0 <= i < |links| ensures links[i].eventID > 0 {
        assert i > 0 ==> links[0].eventID < links[i].eventID;
      }
    }
  }

  predicate Ascending(links: seq<ChainLink>) {
    forall i, j :: 0 <= i < j < |links| ==> links[i].eventID < links[j].eventID
  }

  predicate AscendsStepwise(links: seq<ChainLink>) {
    forall i :: 0 < i < |links| ==> links[i - 1].eventID < links[i].eventID
  }

  lemma AscendingExactly(links: seq<ChainLink>)
    ensures Ascending(links) <==> AscendsStepwise(links)
  {
    if AscendsStepwise(links) {
      forall i, j | 0 <= i < j < |links| ensures links[i].eventID < links[j].eventID {
        Apart(links, i, j);
      }
    }
  }

  lemma {:induction false} Apart(links: seq<ChainLink>, i: nat, j: nat)
    requires AscendsStepwise(links) && i < j < |links|
    ensures links[i].eventID < links[j].eventID
  {
    if i + 1 < j {
      Apart(links, i, j - 1);
    }
    assert links[j - 1].eventID < links[j].eventID;
  }

  /** The digest an epoch begins with exists exactly for a token, an epoch and two fingerprints, and with a hash free of
      collisions on the two documents it tells all four apart. */
  lemma GenesisIsExact(h: Hasher, a: Document, b: Document)
    requires a.GenesisDoc? && b.GenesisDoc? && CollisionFree(h, {a, b})
    ensures var digest := GenesisDigest(h, a.genesisInstance, a.epoch, a.priorCheckpoint, a.recoveryDecision);
      var other := GenesisDigest(h, b.genesisInstance, b.epoch, b.priorCheckpoint, b.recoveryDecision);
      && (digest.Some? <==>
            && ValidToken(a.genesisInstance, 128) && 0 <= a.epoch && ValidFingerprint(a.priorCheckpoint)
            && ValidFingerprint(a.recoveryDecision))
      && (digest.Some? && digest == other ==> a == b)
  {
  }
}
