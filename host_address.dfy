/** The textual IPv4 check and the choice of the address shown to the
    user (main.go). The outputs of the shell probes are passed in. */
module HostAddress {
  import opened Wrappers
  import opened Text
  import opened Platform

  /** One dotted group as `isValidIP` accepts it: 1 to 3 ASCII digits. */
  predicate IsDigitGroup(g: string) {
    1 <= |g| <= 3 && AllDigits(g)
  }

  /** `isValidIP`: exactly four '.'-separated groups, each of 1 to 3 digits.
      The numeric value of a group is not checked. */
  predicate IsValidIP(ip: string) {
    var parts := Split(ip, '.');
    |parts| == 4 && forall k :: 0 <= k < |parts| ==> IsDigitGroup(parts[k])
  }

  /** Every character of digit groups joined by '.' is a digit or a '.'. */
  lemma {:induction false} JoinedDigitsChars(parts: seq<string>)
    requires |parts| >= 1
    requires forall k :: 0 <= k < |parts| ==> AllDigits(parts[k])
    ensures forall i :: 0 <= i < |Join(parts, '.')| ==> Join(parts, '.')[i] == '.' || IsDigit(Join(parts, '.')[i])
    decreases |parts|
  {
    if |parts| > 1 {
      JoinedDigitsChars(parts[1..]);
      var tail := Join(parts[1..], '.');
      var s := parts[0] + ['.'] + tail;
      forall i | 0 <= i < |s|
        ensures s[i] == '.' || IsDigit(s[i])
      {
        if i < |parts[0]| {
          assert s[i] == parts[0][i];
        } else if i > |parts[0]| {
          assert s[i] == tail[i - |parts[0]| - 1];
        }
      }
    }
  }

  /** What an accepted address looks like: four digit groups around three
      dots, 7 to 15 characters, nothing but digits and dots. */
  lemma ValidIPShape(ip: string)
    requires IsValidIP(ip)
    ensures var p := Split(ip, '.');
      && ip == p[0] + "." + p[1] + "." + p[2] + "." + p[3]
      && IsDigitGroup(p[0]) && IsDigitGroup(p[1]) && IsDigitGroup(p[2]) && IsDigitGroup(p[3])
    ensures 7 <= |ip| <= 15
    ensures forall i :: 0 <= i < |ip| ==> ip[i] == '.' || IsDigit(ip[i])
  {
    var p := Split(ip, '.');
    JoinFour(p, '.');
    assert IsDigitGroup(p[0]) && IsDigitGroup(p[1]) && IsDigitGroup(p[2]) && IsDigitGroup(p[3]);
    JoinedDigitsChars(p);
  }

  /** Conversely, any four groups of 1 to 3 digits joined by dots are
      accepted, and splitting gives the four groups back. */
  lemma ValidIPFromGroups(a: string, b: string, c: string, d: string)
    requires IsDigitGroup(a) && IsDigitGroup(b) && IsDigitGroup(c) && IsDigitGroup(d)
    ensures Join([a, b, c, d], '.') == a + "." + b + "." + c + "." + d
    ensures Split(Join([a, b, c, d], '.'), '.') == [a, b, c, d]
    ensures IsValidIP(Join([a, b, c, d], '.'))
  {
    var parts := [a, b, c, d];
    DigitsHaveNoDot(a);
    DigitsHaveNoDot(b);
    DigitsHaveNoDot(c);
    DigitsHaveNoDot(d);
    SplitJoinRoundTrip(parts, '.');
    JoinFour(parts, '.');
  }

  lemma DigitsHaveNoDot(g: string)
    requires AllDigits(g)
    ensures '.' !in g
  {
  }

  /** The decimal value of a digit group. */
  function GroupValue(g: string): nat
    requires AllDigits(g)
    decreases |g|
  {
    if |g| == 0 then 0
    else 10 * GroupValue(g[..|g| - 1]) + (g[|g| - 1] as int - '0' as int)
  }

  /** Dotted-decimal IPv4 notation proper: each of the four groups is an
      octet, i.e. at most 255. */
  predicate IsDottedDecimal(ip: string) {
    IsValidIP(ip) &&
    var parts := Split(ip, '.');
    forall k :: 0 <= k < |parts| ==> GroupValue(parts[k]) <= 255
  }

  /** `isValidIP` is weaker than dotted-decimal notation: a group above
      255 is still accepted. */
  lemma AcceptsOutOfRangeGroups(a: string, b: string, c: string, d: string)
    requires IsDigitGroup(a) && IsDigitGroup(b) && IsDigitGroup(c) && IsDigitGroup(d)
    requires GroupValue(a) > 255
    ensures IsValidIP(Join([a, b, c, d], '.'))
    ensures !IsDottedDecimal(Join([a, b, c, d], '.'))
  {
    ValidIPFromGroups(a, b, c, d);
    assert Split(Join([a, b, c, d], '.'), '.')[0] == a;
  }

  /** "999.999.999.999" passes `isValidIP` although it is no IPv4 address. */
  lemma NinesAcceptedButNotDottedDecimal()
    ensures IsValidIP("999.999.999.999") && !IsDottedDecimal("999.999.999.999")
  {
    NinesGroup();
    NinesJoined();
    AcceptsOutOfRangeGroups("999", "999", "999", "999");
  }

  lemma NinesGroup()
    ensures IsDigitGroup("999") && GroupValue("999") == 999
  {
    assert "999"[..2] == "99" && "99"[..1] == "9" && "9"[..0] == "";
  }

  lemma NinesJoined()
    ensures Join(["999", "999", "999", "999"], '.') == "999.999.999.999"
  {
    JoinFour(["999", "999", "999", "999"], '.');
  }

  /** The "localhost" test in the hostname filter never rejects anything
      that `isValidIP` has not already rejected. */
  lemma LocalhostIsNotValidIP()
    ensures !IsValidIP("localhost")
  {
    if IsValidIP("localhost") {
      ValidIPShape("localhost");
    }
  }

  /** The empty output of a probe is never an address. */
  lemma EmptyIsNotValidIP()
    ensures !IsValidIP("")
  {
    assert |Split("", '.')| == 1;
  }

  /** A field of `hostname -I` that `getLocalIP` is willing to show. */
  predicate IsUsableHost(ip: string) {
    IsValidIP(ip) && ip != "localhost" && !HasPrefix(ip, "127.")
  }

  /** `found` is the first usable entry of `ips`, or None when there is none. */
  ghost predicate IsFirstUsable(ips: seq<string>, found: Option<string>) {
    && (found.None? <==> forall k :: 0 <= k < |ips| ==> !IsUsableHost(ips[k]))
    && (found.Some? ==>
         exists k :: 0 <= k < |ips| && ips[k] == found.value && IsUsableHost(ips[k])
           && forall j :: 0 <= j < k ==> !IsUsableHost(ips[j]))
  }

  /** Skipping an unusable head keeps the first usable entry of the rest. */
  lemma FirstUsableAfterUnusable(ips: seq<string>, found: Option<string>)
    requires |ips| > 0 && !IsUsableHost(ips[0])
    requires IsFirstUsable(ips[1..], found)
    ensures IsFirstUsable(ips, found)
  {
    assert forall k :: 1 <= k < |ips| ==> ips[k] == ips[1..][k - 1];
    if found.Some? {
      var k :| 0 <= k < |ips[1..]| && ips[1..][k] == found.value && IsUsableHost(ips[1..][k])
        && forall j :: 0 <= j < k ==> !IsUsableHost(ips[1..][j]);
      assert ips[k + 1] == found.value && forall j :: 0 <= j < k + 1 ==> !IsUsableHost(ips[j]);
    }
  }

  /** The loop over the `hostname -I` fields: the first usable one, if any. */
  function FirstUsableHost(ips: seq<string>): (found: Option<string>)
    ensures IsFirstUsable(ips, found)
    decreases |ips|
  {
    if |ips| == 0 then None
    else if IsUsableHost(ips[0]) then Some(ips[0])
    else
      var found := FirstUsableHost(ips[1..]);
      FirstUsableAfterUnusable(ips, found);
      found
  }

  /** Results of the external probes `getLocalIP` runs, already trimmed of
      surrounding white space; None when the tool is missing or fails. */
  datatype Probes = Probes(
    route: Option<string>,                // `ip route get 8.8.8.8`, 7th field
    hostnameFields: Option<seq<string>>,  // `hostname -I`, split into fields
    addr: Option<string>,                 // first non-loopback `inet` of `ip addr show`
    ifconfig: Option<string>              // first non-loopback `inet` of `ifconfig`
  )

  /** The address each probe offers, in the order `getLocalIP` tries
      them: route (unless empty or "0.0.0.0"), the first usable
      `hostname -I` field, addr and ifconfig (unless empty); each must pass
      `isValidIP`. None when the probe offers nothing acceptable. */
  function ProbeAnswers(p: Probes): (answers: seq<Option<string>>)
    ensures |answers| == 4
    ensures forall k :: 0 <= k < |answers| && answers[k].Some? ==> IsValidIP(answers[k].value)
    ensures answers[0].Some? ==> answers[0] == p.route && answers[0].value != "0.0.0.0"
    ensures p.route.Some? && p.route.value != "0.0.0.0" && IsValidIP(p.route.value) ==> answers[0] == p.route
    ensures answers[1].Some? ==> p.hostnameFields.Some?
    ensures p.hostnameFields.Some? ==> IsFirstUsable(p.hostnameFields.value, answers[1])
    ensures answers[2].Some? ==> answers[2] == p.addr
    ensures p.addr.Some? && IsValidIP(p.addr.value) ==> answers[2] == p.addr
    ensures answers[3].Some? ==> answers[3] == p.ifconfig
    ensures p.ifconfig.Some? && IsValidIP(p.ifconfig.value) ==> answers[3] == p.ifconfig
  {
    [ AcceptedOutput(p.route, "0.0.0.0"),
      if p.hostnameFields.Some? then FirstUsableHost(p.hostnameFields.value) else None,
      AcceptedOutput(p.addr, ""),
      AcceptedOutput(p.ifconfig, "") ]
  }

  /** A single-line probe output as `getLocalIP` checks it: not empty, not
      the `rejected` value, and accepted by `isValidIP`. */
  function AcceptedOutput(output: Option<string>, rejected: string): (answer: Option<string>)
    ensures answer.Some? ==> answer == output && answer.value != rejected && IsValidIP(answer.value)
    ensures output.Some? && output.value != rejected && IsValidIP(output.value) ==> answer == output
  {
    EmptyIsNotValidIP();
    if output.Some? && output.value != "" && output.value != rejected && IsValidIP(output.value) then output
    else None
  }

  /** The first answer offered, in order; None when none is. */
  function FirstOffered(answers: seq<Option<string>>): (first: Option<string>)
    ensures first.None? <==> forall k :: 0 <= k < |answers| ==> answers[k].None?
    ensures first.Some? ==>
      exists k :: 0 <= k < |answers| && answers[k] == first
        && forall j :: 0 <= j < k ==> answers[j].None?
    decreases |answers|
  {
    if |answers| == 0 then None
    else if answers[0].Some? then answers[0]
    else
      var first := FirstOffered(answers[1..]);
      assert forall k :: 1 <= k < |answers| ==> answers[k] == answers[1..][k - 1];
      assert first.Some? ==>
        exists k :: 1 <= k < |answers| && answers[k] == first
          && forall j :: 0 <= j < k ==> answers[j].None?;
      first
  }

  /** An address that passes `isValidIP` is never "localhost". */
  lemma ValidIPIsNotLocalhost(ip: string)
    requires IsValidIP(ip)
    ensures ip != "localhost"
  {
    LocalhostIsNotValidIP();
  }

  /** `getLocalIP`: on Android, the first probe offering an acceptable
      address wins; "localhost" exactly when none does or off Android. */
  function LocalIP(e: Environment, probes: Probes): (ip: string)
    ensures ip == "localhost" || IsValidIP(ip)
    ensures !IsAndroidEnvironment(e) ==> ip == "localhost"
    ensures IsAndroidEnvironment(e) ==>
      (ip == "localhost" <==> forall k :: 0 <= k < 4 ==> ProbeAnswers(probes)[k].None?)
    ensures IsAndroidEnvironment(e) && ip != "localhost" ==>
      exists k :: 0 <= k < 4 && ProbeAnswers(probes)[k] == Some(ip)
        && forall j :: 0 <= j < k ==> ProbeAnswers(probes)[j].None?
  {
    if !IsAndroidEnvironment(e) then "localhost"
    else
      var answers := ProbeAnswers(probes);
      match FirstOffered(answers)
      case None => "localhost"
      case Some(ip) =>
        assert exists k :: 0 <= k < |answers| && answers[k] == Some(ip);
        ValidIPIsNotLocalhost(ip);
        ip
  }
}
