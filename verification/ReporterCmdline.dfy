/**
  The in-image reporter's reading of the kernel command line, and that it recovers the
  server and the token the boot loader config was rendered with.
*/
module ReporterCmdline {
  import opened Options
  import opened Text
  import opened GrubTemplate

  const SERVER_KEY := "fleetboot.server"
  const TOKEN_KEY := "fleetboot.boot_token"

  datatype Settings = Settings(serverUrl: string, bootToken: string)

  datatype Reading = Found(settings: Settings) | Missing(keys: seq<string>)

  datatype Setting = Setting(key: string, value: string)

  // token.split("=", 1), where there is an "=".
  function SplitToken(token: string): Option<Setting> {
    var n := UpTo(token, {'='});
    if n == |token| then None else Some(Setting(token[..n], token[n + 1..]))
  }

  // The value the last token for `key` gives it.
  function LastValue(tokens: seq<string>, key: string): Option<string> {
    if tokens == [] then None
    else
      var s := SplitToken(tokens[|tokens| - 1]);
      if s.Some? && s.value.key == key then Some(s.value.value) else LastValue(tokens[..|tokens| - 1], key)
  }

  function ReadSettings(cmdline: string): Reading {
    var tokens := Words(Strip(cmdline));
    var server, token := LastValue(tokens, SERVER_KEY), LastValue(tokens, TOKEN_KEY);
    if server.Some? && token.Some? then Found(Settings(server.value, token.value))
    else Missing((if server.None? then [SERVER_KEY] else []) + if token.None? then [TOKEN_KEY] else [])
  }

  // The dictionary after a prefix of the tokens.
  ghost predicate HoldsLast(found: map<string, string>, tokens: seq<string>) {
    && (forall key :: key in found ==> key in {SERVER_KEY, TOKEN_KEY})
    && (SERVER_KEY in found <==> LastValue(tokens, SERVER_KEY).Some?)
    && (TOKEN_KEY in found <==> LastValue(tokens, TOKEN_KEY).Some?)
    && (SERVER_KEY in found ==> LastValue(tokens, SERVER_KEY) == Some(found[SERVER_KEY]))
    && (TOKEN_KEY in found ==> LastValue(tokens, TOKEN_KEY) == Some(found[TOKEN_KEY]))
  }

  lemma KeysDiffer()
    ensures SERVER_KEY != TOKEN_KEY
  {
  }

  lemma HoldsNext(found: map<string, string>, tokens: seq<string>, i: nat)
    requires i < |tokens| && HoldsLast(found, tokens[..i])
    ensures var s := SplitToken(tokens[i]);
            HoldsLast(if s.Some? && s.value.key in {SERVER_KEY, TOKEN_KEY} then found[s.value.key := s.value.value] else found,
                      tokens[..i + 1])
  {
    assert tokens[..i + 1][..i] == tokens[..i];
    KeysDiffer();
  }

  method ParseCmdline(cmdline: string) returns (out: Reading)
    ensures out == ReadSettings(cmdline)
  {
    var tokens := Words(Strip(cmdline));
    var found: map<string, string> := map[];
    for i := 0 to |tokens|
      invariant HoldsLast(found, tokens[..i])
    {
      HoldsNext(found, tokens, i);
      var s := SplitToken(tokens[i]);
      if s.Some? && s.value.key in {SERVER_KEY, TOKEN_KEY} {
        found := found[s.value.key := s.value.value];
      }
    }
    assert tokens[..|tokens|] == tokens;
    if SERVER_KEY !in found || TOKEN_KEY !in found {
      var missing: seq<string> := [];
      if SERVER_KEY !in found {
        missing := missing + [SERVER_KEY];
      }
      if TOKEN_KEY !in found {
        missing := missing + [TOKEN_KEY];
      }
      out := Missing(missing);
    } else {
      out := Found(Settings(found[SERVER_KEY], found[TOKEN_KEY]));
    }
  }

  // ---- The round trip across the boot ----------------------------------------

  ghost predicate NoSpace(s: string) {
    forall i :: 0 <= i < |s| ==> !IsSpace(s[i])
  }

  lemma UpToEnd(key: string, value: string)
    requires '=' !in key
    ensures SplitToken(key + "=" + value) == Some(Setting(key, value))
  {
    var s := key + "=" + value;
    KeyLength(key, "=" + value);
    assert s == key + ("=" + value);
    assert s[..|key|] == key && s[|key| + 1..] == value;
  }

  lemma {:induction false} KeyLength(key: string, rest: string)
    requires '=' !in key && rest != [] && rest[0] == '='
    ensures UpTo(key + rest, {'='}) == |key|
  {
    if key == [] {
      assert key + rest == rest;
    } else {
      assert (key + rest)[1..] == key[1..] + rest;
      KeyLength(key[1..], rest);
    }
  }

  lemma LastValueSnoc(tokens: seq<string>, token: string, key: string)
    ensures LastValue(tokens + [token], key)
         == if SplitToken(token).Some? && SplitToken(token).value.key == key then Some(SplitToken(token).value.value)
            else LastValue(tokens, key)
  {
  }

  ghost predicate HasKey(token: string, key: string) {
    SplitToken(token).Some? && SplitToken(token).value.key == key
  }

  ghost predicate Without(tokens: seq<string>, key: string) {
    forall i :: 0 <= i < |tokens| ==> !HasKey(tokens[i], key)
  }

  // The token sets the key, to whatever value.
  ghost predicate Sets(token: string, key: string) {
    key + "=" <= token
  }

  lemma HasKeyIff(token: string, key: string)
    requires '=' !in key
    ensures HasKey(token, key) <==> Sets(token, key)
    ensures HasKey(token, key) ==> token == key + "=" + SplitToken(token).value.value
  {
    if Sets(token, key) {
      var value := token[|key| + 1..];
      assert token == key + "=" + value;
      UpToEnd(key, value);
    }
    if HasKey(token, key) {
      var n := UpTo(token, {'='});
      assert token == token[..n] + "=" + token[n + 1..];
    }
  }

  // The last of the words that set the key sets it to `value`.
  ghost predicate SetsLast(words: seq<string>, key: string, value: string) {
    exists i :: 0 <= i < |words| && words[i] == key + "=" + value && forall j :: i < j < |words| ==> !Sets(words[j], key)
  }

  ghost predicate NoneSets(words: seq<string>, key: string) {
    forall i :: 0 <= i < |words| ==> !Sets(words[i], key)
  }

  lemma {:induction false} LastValueMeans(words: seq<string>, key: string)
    requires '=' !in key
    ensures LastValue(words, key).None? ==> NoneSets(words, key)
    ensures LastValue(words, key).Some? ==> SetsLast(words, key, LastValue(words, key).value) && !NoneSets(words, key)
  {
    if words == [] {
    } else {
      var n := |words| - 1;
      HasKeyIff(words[n], key);
      if !HasKey(words[n], key) {
        LastValueMeans(words[..n], key);
        if LastValue(words, key).Some? {
          var value := LastValue(words, key).value;
          var i :| 0 <= i < n && words[..n][i] == key + "=" + value && forall j :: i < j < n ==> !Sets(words[..n][j], key);
          forall j | i < j < |words|
            ensures !Sets(words[j], key)
          {
            assert j < n ==> words[..n][j] == words[j];
          }
          assert words[i] == key + "=" + value && Sets(words[i], key);
        } else {
          forall j | 0 <= j < |words|
            ensures !Sets(words[j], key)
          {
            assert j < n ==> words[..n][j] == words[j];
          }
        }
      } else {
        assert words[n] == key + "=" + SplitToken(words[n]).value.value;
      }
    }
  }

  // What the reporter reads: of each key the last word that sets it, or which are missing.
  lemma ReadingMeans(cmdline: string)
    ensures var out := ReadSettings(cmdline);
            && (out.Found? ==>
                  && SetsLast(Words(cmdline), "fleetboot.server", out.settings.serverUrl)
                  && SetsLast(Words(cmdline), "fleetboot.boot_token", out.settings.bootToken))
            && (out.Missing? ==>
                  && out.keys != []
                  && out.keys == (if NoneSets(Words(cmdline), "fleetboot.server") then ["fleetboot.server"] else [])
                                 + if NoneSets(Words(cmdline), "fleetboot.boot_token") then ["fleetboot.boot_token"] else [])
  {
    WordsOfStrip(cmdline);
    LastValueMeans(Words(cmdline), SERVER_KEY);
    LastValueMeans(Words(cmdline), TOKEN_KEY);
  }

  // Later tokens for other keys leave a setting alone.
  lemma {:induction false} LastValuePast(tokens: seq<string>, rest: seq<string>, key: string)
    requires Without(rest, key)
    ensures LastValue(tokens + rest, key) == LastValue(tokens, key)
  {
    if rest == [] {
      assert tokens + rest == tokens;
    } else {
      var front := rest[..|rest| - 1];
      assert tokens + rest == tokens + front + [rest[|rest| - 1]];
      LastValueSnoc(tokens + front, rest[|rest| - 1], key);
      LastValuePast(tokens, front, key);
    }
  }

  lemma LastValueIs(before: seq<string>, key: string, value: string, after: seq<string>)
    requires '=' !in key && Without(after, key)
    ensures LastValue(before + [key + "=" + value] + after, key) == Some(value)
  {
    UpToEnd(key, value);
    LastValueSnoc(before, key + "=" + value, key);
    LastValuePast(before + [key + "=" + value], after, key);
  }

  lemma OtherKey(name: string, value: string, key: string)
    requires '=' !in name && |name| != |key|
    ensures !HasKey(name + "=" + value, key)
  {
    UpToEnd(name, value);
  }

  // The closing words of the command line set neither key.
  function Closing(scratch: string, serial: bool): seq<string> {
    ["fleetboot.scratch=" + scratch] + if serial then ["console=tty0", "console=ttyS0,115200n8"] else ["quiet"]
  }

  lemma ThreeWithout(first: string, second: string, third: string, key: string)
    requires !HasKey(first, key) && !HasKey(second, key) && !HasKey(third, key)
    ensures Without([first] + [second, third], key) && Without([first] + [second], key)
  {
  }

  lemma Tty0Without(token: string, key: string)
    requires token == "console=tty0" && |key| > 7
    ensures !HasKey(token, key)
  {
  }

  lemma SerialWithout(token: string, key: string)
    requires token == "console=ttyS0,115200n8" && |key| > 7
    ensures !HasKey(token, key)
  {
  }

  lemma QuietWithout(token: string, key: string)
    requires token == "quiet"
    ensures !HasKey(token, key)
  {
  }

  lemma ScratchWithout(token: string, scratch: string, key: string)
    requires token == "fleetboot.scratch=" + scratch && |key| != 17
    ensures !HasKey(token, key)
  {
    assert token == "fleetboot.scratch" + "=" + scratch;
    OtherKey("fleetboot.scratch", scratch, key);
  }

  lemma ClosingWithout(scratch: string, serial: bool, key: string)
    requires |key| > 7 && |key| != 17
    ensures Without(Closing(scratch, serial), key)
  {
    var mode, tty0, serial0, quiet := "fleetboot.scratch=" + scratch, "console=tty0", "console=ttyS0,115200n8", "quiet";
    ScratchWithout(mode, scratch, key);
    Tty0Without(tty0, key);
    SerialWithout(serial0, key);
    QuietWithout(quiet, key);
    ThreeWithout(mode, tty0, serial0, key);
    ThreeWithout(mode, quiet, serial0, key);
  }

  function Opening(server: string, token: string, squashfs: string): seq<string> {
    ["boot=live", "fetch=" + server + "/boot/" + token + "/" + squashfs, "ip=dhcp"]
  }

  // Whatever stands before our words on the line, ours are the settings read.
  lemma PartsGiveSettings(lead: seq<string>, server: string, token: string, squashfs: string, scratch: string, serial: bool)
    ensures var tokens := lead + CmdlineParts(server, token, squashfs, scratch, serial);
            LastValue(tokens, SERVER_KEY) == Some(server + "/") && LastValue(tokens, TOKEN_KEY) == Some(token)
  {
    var tokens := lead + CmdlineParts(server, token, squashfs, scratch, serial);
    var before, closing := lead + Opening(server, token, squashfs), Closing(scratch, serial);
    var s, t := SERVER_KEY + "=" + (server + "/"), TOKEN_KEY + "=" + token;
    ClosingWithout(scratch, serial, SERVER_KEY);
    ClosingWithout(scratch, serial, TOKEN_KEY);
    OtherKey(TOKEN_KEY, token, SERVER_KEY);
    assert s == "fleetboot.server=" + server + "/" && t == "fleetboot.boot_token=" + token;
    assert tokens == before + [s] + ([t] + closing);
    assert tokens == before + [s] + [t] + closing;
    LastValueIs(before, SERVER_KEY, server + "/", [t] + closing);
    LastValueIs(before + [s], TOKEN_KEY, token, closing);
  }

  // ---- No space in the inputs, no space in the words -------------------------

  lemma SchemeNoSpace(url: string)
    requires NoSpace(url)
    ensures NoSpace(Scheme(url))
  {
  }

  lemma TailNoSpace(url: string)
    requires NoSpace(url)
    ensures NoSpace(Netloc(url)) && NoSpace(Tail(url))
  {
  }

  lemma NoSpaceAppend(a: string, b: string)
    requires NoSpace(a) && NoSpace(b)
    ensures NoSpace(a + b)
  {
  }

  lemma BasePathNoSpace(tail: string)
    requires NoSpace(tail)
    ensures NoSpace(BasePath(tail))
  {
  }

  lemma ThreeNoSpace(scheme: string, netloc: string, path: string)
    requires NoSpace(scheme) && NoSpace(netloc) && NoSpace(path)
    ensures NoSpace(scheme + "://" + netloc + path)
  {
    NoSpaceAppend(scheme, "://");
    NoSpaceAppend(scheme + "://", netloc);
    NoSpaceAppend(scheme + "://" + netloc, path);
  }

  lemma {:induction false} DropControlsNoSpace(s: string)
    requires NoSpace(s)
    ensures NoSpace(DropControls(s))
  {
    if s != [] && s[0] <= ' ' {
      DropControlsNoSpace(s[1..]);
    }
  }

  lemma {:induction false} RemoveBreaksNoSpace(s: string)
    requires NoSpace(s)
    ensures NoSpace(RemoveBreaks(s))
  {
    if s == [] {
    } else {
      RemoveBreaksNoSpace(s[1..]);
    }
  }

  // A URL without whitespace stays without.
  lemma CleanNoSpace(url: string)
    requires NoSpace(url)
    ensures NoSpace(Clean(url))
  {
    DropControlsNoSpace(url);
    RemoveBreaksNoSpace(DropControls(url));
  }

  lemma BaseNoSpace(url: string)
    requires NoSpace(Clean(url)) && Base(url).Some?
    ensures NoSpace(Base(url).value)
  {
    var clean := Clean(url);
    BaseIs(url);
    SchemeNoSpace(clean);
    TailNoSpace(clean);
    BasePathNoSpace(Tail(clean));
    ThreeNoSpace(Scheme(clean), Netloc(clean), BasePath(Tail(clean)));
  }

  lemma SquashfsNoSpace(architecture: string, profile: string, letters: set<char>)
    requires SquashfsFilename(architecture, profile, letters).Ok? && forall c :: c in letters ==> !IsSpace(c)
    ensures NoSpace(SquashfsFilename(architecture, profile, letters).value)
  {
    assert NoSpace("fleetboot-") && NoSpace(".squashfs") && NoSpace("-");
    assert NoSpace(DebianArchitecture(architecture).value);
    assert NoSpace(profile);
  }

  lemma NoSpaceConcat(a: string, b: string)
    requires NoSpace(a) && NoSpace(b) && a != []
    ensures IsWord(a + b)
  {
  }

  lemma OpeningWords(server: string, token: string, squashfs: string)
    requires NoSpace(server) && NoSpace(token) && NoSpace(squashfs)
    ensures forall w :: w in Opening(server, token, squashfs) ==> IsWord(w)
  {
    NoSpaceConcat("fetch=", server);
    NoSpaceConcat("fetch=" + server, "/boot/");
    NoSpaceConcat("fetch=" + server + "/boot/", token);
    NoSpaceConcat("fetch=" + server + "/boot/" + token, "/");
    NoSpaceConcat("fetch=" + server + "/boot/" + token + "/", squashfs);
    assert IsWord("boot=live") && IsWord("ip=dhcp");
  }

  lemma ClosingWords(scratch: string, serial: bool)
    requires NoSpace(scratch)
    ensures forall w :: w in Closing(scratch, serial) ==> IsWord(w)
  {
    NoSpaceConcat("fleetboot.scratch=", scratch);
    assert IsWord("console=tty0") && IsWord("console=ttyS0,115200n8") && IsWord("quiet");
  }

  lemma PartsAreWords(server: string, token: string, squashfs: string, scratch: string, serial: bool)
    requires NoSpace(server) && NoSpace(token) && NoSpace(squashfs) && NoSpace(scratch)
    ensures forall w :: w in CmdlineParts(server, token, squashfs, scratch, serial) ==> IsWord(w)
  {
    OpeningWords(server, token, squashfs);
    ClosingWords(scratch, serial);
    NoSpaceConcat("fleetboot.server=", server);
    NoSpaceConcat("fleetboot.server=" + server, "/");
    NoSpaceConcat("fleetboot.boot_token=", token);
    assert CmdlineParts(server, token, squashfs, scratch, serial)
        == Opening(server, token, squashfs) + ["fleetboot.server=" + server + "/", "fleetboot.boot_token=" + token] + Closing(scratch, serial);
  }

  // The reporter reads back the server and the token from the command line the config
  // was rendered with, alone or after words the boot loader puts in front of it.
  lemma RoundTrip(lead: seq<string>, url: string, token: string, squashfs: Result<string, Error>, scratch: string, serial: bool)
    requires NoSpace(Clean(url)) && NoSpace(token) && NoSpace(scratch)
    requires squashfs.Ok? ==> NoSpace(squashfs.value)
    requires forall w :: w in lead ==> IsWord(w)
    ensures var out := RenderCmdline(url, token, squashfs, scratch, serial);
            out.Ok? ==> OneLine(JoinWith(lead + [out.value], " "))
                        && ReadSettings(JoinWith(lead + [out.value], " ")) == Found(Settings(Base(url).value + "/", token))
  {
    var out := RenderCmdline(url, token, squashfs, scratch, serial);
    if out.Ok? {
      var server := Base(url).value;
      var parts := CmdlineParts(server, token, squashfs.value, scratch, serial);
      BaseNoSpace(url);
      PartsAreWords(server, token, squashfs.value, scratch, serial);
      JoinNested(lead, parts);
      WordsOfJoined(lead + parts);
      JoinedWordsOneLine(lead + parts);
      StripStripped(JoinWith(lead + parts, " "));
      PartsGiveSettings(lead, server, token, squashfs.value, scratch, serial);
    }
  }

  lemma {:induction false} JoinNested(lead: seq<string>, parts: seq<string>)
    requires parts != []
    ensures JoinWith(lead + [JoinWith(parts, " ")], " ") == JoinWith(lead + parts, " ")
  {
    if lead == [] {
      assert lead + parts == parts && lead + [JoinWith(parts, " ")] == [JoinWith(parts, " ")];
    } else {
      JoinNested(lead[1..], parts);
      assert (lead + parts)[1..] == lead[1..] + parts;
      assert (lead + [JoinWith(parts, " ")])[1..] == lead[1..] + [JoinWith(parts, " ")];
    }
  }

  // `line` is a whole line of `text`.
  ghost predicate IsLineOf(line: string, text: string) {
    '\n' !in line
    && exists before: string, after: string ::
         before + line + "\n" + after == text && (before == [] || before[|before| - 1] == '\n')
  }

  lemma {:induction false} EndedEnds(lines: seq<string>)
    ensures Ended(lines) == [] || Ended(lines)[|Ended(lines)| - 1] == '\n'
  {
    if lines == [] {
    } else {
      EndedEnds(lines[1..]);
    }
  }

  lemma LinuxLineIs(cmdline: string)
    ensures JoinWith(["linux", KERNEL_URL] + [cmdline], " ") == LinuxLine(cmdline)
  {
    var three := ["linux", KERNEL_URL, cmdline];
    assert ["linux", KERNEL_URL] + [cmdline] == three;
    assert three[1..] == [KERNEL_URL, cmdline] && three[1..][1..] == [cmdline];
    assert JoinWith(three[1..], " ") == KERNEL_URL + " " + cmdline;
  }

  lemma KernelUrlIsWord()
    ensures IsWord("linux") && IsWord(KERNEL_URL)
  {
    assert NoSpace("(tftp,${pxe_default_server})") && NoSpace("/vmlinuz");
    NoSpaceConcat("(tftp,${pxe_default_server})", "/vmlinuz");
  }

  lemma ConfigHasLine(identity: Identity, token: string, serial: bool, cmdline: string)
    requires '\n' !in LinuxLine(cmdline)
    ensures IsLineOf(LinuxLine(cmdline), Config(identity, token, serial, cmdline))
  {
    EndedEnds(ConfigStart(identity, token, serial));
  }

  lemma OneLineNoNewline(s: string)
    requires OneLine(s)
    ensures '\n' !in s
  {
  }

  // The kernel line, its command and file name included.
  lemma LinuxLineGives(url: string, token: string, squashfs: Result<string, Error>, scratch: string, serial: bool)
    requires NoSpace(Clean(url)) && NoSpace(token) && NoSpace(scratch) && (squashfs.Ok? ==> NoSpace(squashfs.value))
    ensures var out := RenderCmdline(url, token, squashfs, scratch, serial);
            out.Ok? ==> '\n' !in LinuxLine(out.value)
                        && ReadSettings(LinuxLine(out.value)) == Found(Settings(Base(url).value + "/", token))
  {
    var out := RenderCmdline(url, token, squashfs, scratch, serial);
    if out.Ok? {
      KernelUrlIsWord();
      RoundTrip(["linux", KERNEL_URL], url, token, squashfs, scratch, serial);
      LinuxLineIs(out.value);
      OneLineNoNewline(LinuxLine(out.value));
    }
  }

  // The kernel line of the rendered config gives the reporter its settings, whatever
  // the machine, the profile, the scratch mode and the console.
  lemma ConfigRoundTrip(identity: Identity, url: string, token: string, profile: string, serial: bool,
      target: Option<string>, scratch: string, letters: set<char>)
    requires NoSpace(Clean(url)) && NoSpace(token) && NoSpace(scratch) && forall c :: c in letters ==> !IsSpace(c)
    ensures var out := RenderConfig(identity, url, token, profile, serial, target, scratch, letters);
            out.Ok? ==> exists line :: IsLineOf(line, out.value) && "linux " <= line
                                       && ReadSettings(line) == Found(Settings(Base(url).value + "/", token))
  {
    var out := RenderConfig(identity, url, token, profile, serial, target, scratch, letters);
    if out.Ok? {
      var architecture := if target.Some? && target.value != "" then target.value else identity.architecture;
      var squashfs := SquashfsFilename(architecture, profile, letters);
      var cmdline := RenderCmdline(url, token, squashfs, scratch, serial).value;
      SquashfsNoSpace(architecture, profile, letters);
      LinuxLineGives(url, token, squashfs, scratch, serial);
      ConfigHasLine(identity, token, serial, cmdline);
      LinuxFirst(cmdline);
    }
  }

  lemma LinuxFirst(cmdline: string)
    ensures "linux " <= LinuxLine(cmdline)
  {
  }
}
