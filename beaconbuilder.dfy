/** The menu logic of createBeacon: the target and platform tables, the
    two index guards, getPlatform, and the name of the built artifact. The
    prompts, the interface lookup and the `go build` call are parameters or
    left out. */
module BeaconBuilder {
  import opened Protocol

  /** `targets`, listed by index in the target menu. */
  const Targets: seq<string> := ["linux", "windows"]

  /** `platforms`, keyed by target. */
  const PlatformTable: map<string, seq<string>> :=
    map["linux" := ["386", "amd64", "arm", "arm64"], "windows" := ["386", "amd64"]]

  /** platforms[target]: a missing key reads as an empty list. */
  function Platforms(target: string): (ps: seq<string>)
    ensures target in Targets <==> ps != []
    ensures target !in Targets ==> ps == []
    ensures forall i :: 0 <= i < |ps| ==> ps[i] != ""
  {
    if target in PlatformTable then PlatformTable[target] else []
  }

  // ---------------------------------------------------------------- getPlatform

  /** The range loop of getPlatform from position `i` on: the entry whose
      position equals `p`, or "" once the list is exhausted. */
  function SearchFrom(ps: seq<string>, i: nat, p: int): (r: string)
    requires i <= |ps|
    ensures r == if i <= p < |ps| then ps[p] else ""
    decreases |ps| - i
  {
    if i == |ps| then ""
    else if i == p then ps[i]
    else SearchFrom(ps, i + 1, p)
  }

  /** getPlatform(idx, idxplatform): the platform at that position of the
      target's list, or "" when there is none. Indexing `targets` with a bad
      idx panics, so callers must pass a valid one. */
  function GetPlatform(idx: int, idxplatform: int): (r: string)
    requires 0 <= idx < |Targets|
    ensures var ps := Platforms(Targets[idx]);
      r == if 0 <= idxplatform < |ps| then ps[idxplatform] else ""
  {
    SearchFrom(Platforms(Targets[idx]), 0, idxplatform)
  }

  // ---------------------------------------------------------------- the index guards

  /** The target guard as written: it rejects num < 0 and num > len(targets). */
  predicate TargetGuardAsWritten(num: int): (ok: bool)
    ensures ok <==> 0 <= num <= |Targets|
  {
    !(num < 0 || num > |Targets|)
  }

  /** The as-written target guard lets num == len(targets) through, and
      `targets[num]` is then out of range; it is the only index admitted
      wrongly. */
  lemma TargetGuardOffByOne(num: int)
    ensures TargetGuardAsWritten(num) && !(0 <= num < |Targets|) <==> num == |Targets|
  {
  }

  /** The target guard as evidently intended. */
  function TargetGuard(num: int): (ok: bool)
    ensures ok ==> 0 <= num < |Targets|
    ensures 0 <= num < |Targets| ==> ok
  {
    !(num < 0 || num >= |Targets|)
  }

  /** The platform guard as written: it rejects num2 < 0 and
      num2 > len(platforms[target]). */
  predicate PlatformGuardAsWritten(target: string, num2: int): (ok: bool)
    ensures ok <==> 0 <= num2 <= |Platforms(target)|
  {
    !(num2 < 0 || num2 > |Platforms(target)|)
  }

  /** For every target, the as-written platform guard lets
      num2 == len(platforms[target]) through, and getPlatform then yields
      the empty platform. */
  lemma PlatformGuardOffByOne()
    ensures forall i :: 0 <= i < |Targets| ==>
      && PlatformGuardAsWritten(Targets[i], |Platforms(Targets[i])|)
      && GetPlatform(i, |Platforms(Targets[i])|) == ""
  {
  }

  /** The platform guard as evidently intended. */
  function PlatformGuard(target: string, num2: int): (ok: bool)
    ensures ok <==> 0 <= num2 < |Platforms(target)|
  {
    !(num2 < 0 || num2 >= |Platforms(target)|)
  }

  /** Every platform the corrected guards admit is a real entry of the
      table, never "". */
  lemma GuardedPlatformIsListed(num: int, num2: int)
    requires TargetGuard(num) && PlatformGuard(Targets[num], num2)
    ensures GetPlatform(num, num2) in Platforms(Targets[num])
    ensures GetPlatform(num, num2) != ""
  {
    var ps := Platforms(Targets[num]);
    assert Targets[num] == "linux" || Targets[num] == "windows";
    assert forall q :: q in ps ==> q != "";
  }

  // ---------------------------------------------------------------- the artifact name

  function DigitChar(d: nat): (c: char)
    requires d < 10
    ensures '0' <= c <= '9'
  {
    ('0' as int + d) as char
  }

  /** The decimal digits of `n`, most significant first. */
  function Digits(n: nat): (s: string)
    ensures |s| >= 1
    ensures forall i :: 0 <= i < |s| ==> '0' <= s[i] <= '9'
  {
    if n < 10 then [DigitChar(n)] else Digits(n / 10) + [DigitChar(n % 10)]
  }

  /** The value of a string of decimal digits. */
  function DigitsValue(s: string): int
  {
    if s == [] then 0 else 10 * DigitsValue(s[..|s| - 1]) + (s[|s| - 1] as int - '0' as int)
  }

  /** Reading the digits back gives the number. */
  lemma {:induction false} DigitsRoundTrip(n: nat)
    ensures DigitsValue(Digits(n)) == n
  {
    if n >= 10 {
      DigitsRoundTrip(n / 10);
      var s := Digits(n);
      assert s[..|s| - 1] == Digits(n / 10);
    }
  }

  /** strconv.Itoa. */
  function Itoa(n: int): (s: string)
    ensures |s| >= 1 && '0' <= s[|s| - 1] <= '9'
  {
    if n < 0 then "-" + Digits(-n) else Digits(n)
  }

  /** The artifact name for a listener at `ip`:`port`. */
  function ArtifactName(ip: string, port: int, target: string): (name: string)
    ensures |"beacon" + ip| + 1 < |name|
    ensures name[..|"beacon" + ip|] == "beacon" + ip
  {
    var head := "beacon" + ip;
    var base := head + "." + Itoa(port);
    var ext := if target == "windows" then ".exe" else "";
    assert (base + ext)[..|head|] == base[..|head|] == head;
    base + ext
  }

  /** The name is "beacon<ip>.<port>", with ".exe" at the end exactly for
      windows builds: the port's last character is a digit. */
  lemma ArtifactNameShape(ip: string, port: int, target: string)
    ensures var name := ArtifactName(ip, port, target);
      var base := "beacon" + ip + "." + Itoa(port);
      && |base| <= |name| && name[..|base|] == base
      && (target == "windows" <==> |name| >= 4 && name[|name| - 4..] == ".exe")
      && |name| == |base| + (if target == "windows" then 4 else 0)
  {
    var name := ArtifactName(ip, port, target);
    var base := "beacon" + ip + "." + Itoa(port);
    if target != "windows" {
      assert name == base;
      assert name[|name| - 1] == Itoa(port)[|Itoa(port)| - 1];
      if |name| >= 4 {
        assert name[|name| - 4..][3] == name[|name| - 1];
      }
    }
  }

  // ---------------------------------------------------------------- createBeacon

  datatype BuildResult =
    | Invalid                      // "Invalid choice.": createBeacon returns
    | Panic                        // `targets[num]` out of range
    | Build(target: string, platform: string, name: string, proxy: bool)

  /** The answer to the commented-out proxy prompt, fixed in the code. */
  const ProxyAnswer := "n"

  /** The proxy branch is taken on the answer "y\n" only. */
  predicate UsesProxy(input: string): (p: bool)
    ensures p ==> |input| == 2 && input[0] == 'y' && input[1] == '\n'
  {
    input == "y\n"
  }

  /** With the fixed answer, the proxy build branch can never run. */
  lemma ProxyBranchDead()
    ensures !UsesProxy(ProxyAnswer)
  {
  }

  /** createBeacon's choices as written, with both guards off by one. */
  method CreateBeaconAsWritten(targetChoice: Option<int>, platformChoice: Option<int>, ip: string, port: int)
    returns (r: BuildResult)
    ensures r.Panic? <==> targetChoice == Some(|Targets|)
    ensures r.Build? <==>
      && targetChoice.Some? && 0 <= targetChoice.value < |Targets|
      && platformChoice.Some? && 0 <= platformChoice.value <= |Platforms(Targets[targetChoice.value])|
    ensures r.Build? ==>
      && r.target == Targets[targetChoice.value]
      && r.platform == GetPlatform(targetChoice.value, platformChoice.value)
      && r.name == ArtifactName(ip, port, r.target)
      && !r.proxy
    ensures targetChoice.Some? && platformChoice.Some? && 0 <= targetChoice.value < |Targets|
              && platformChoice.value == |Platforms(Targets[targetChoice.value])| ==>
              r.Build? && r.platform == ""
  {
    if targetChoice.None? || !TargetGuardAsWritten(targetChoice.value) {
      return Invalid;
    }
    var num := targetChoice.value;
    if num >= |Targets| {
      return Panic;
    }
    var target := Targets[num];
    if platformChoice.None? || !PlatformGuardAsWritten(target, platformChoice.value) {
      return Invalid;
    }
    var platform := GetPlatform(num, platformChoice.value);
    var input := ProxyAnswer;
    var portText := Itoa(port);
    var beaconName := "beacon" + ip + "." + portText;
    if target == "windows" {
      beaconName := beaconName + ".exe";
    }
    r := Build(target, platform, beaconName, UsesProxy(input));
  }

  /** createBeacon's choices, with the corrected guards. A choice is the
      parsed menu answer, None when strconv.Atoi fails; `ip` is the
      listener's interface address and `port` its port. */
  method CreateBeacon(targetChoice: Option<int>, platformChoice: Option<int>, ip: string, port: int)
    returns (r: BuildResult)
    ensures r.Build? <==>
      && targetChoice.Some? && 0 <= targetChoice.value < |Targets|
      && platformChoice.Some? && 0 <= platformChoice.value < |Platforms(Targets[targetChoice.value])|
    ensures r.Build? ==>
      && r.target == Targets[targetChoice.value]
      && r.platform == Platforms(r.target)[platformChoice.value]
      && r.name == ArtifactName(ip, port, r.target)
      && !r.proxy
  {
    if targetChoice.None? || !TargetGuard(targetChoice.value) {
      return Invalid;
    }
    var num := targetChoice.value;
    var target := Targets[num];
    if platformChoice.None? || !PlatformGuard(target, platformChoice.value) {
      return Invalid;
    }
    var platform := GetPlatform(num, platformChoice.value);
    var input := ProxyAnswer;
    var portText := Itoa(port);
    var beaconName := "beacon" + ip + "." + portText;
    if target == "windows" {
      beaconName := beaconName + ".exe";
    }
    r := Build(target, platform, beaconName, UsesProxy(input));
  }
}
