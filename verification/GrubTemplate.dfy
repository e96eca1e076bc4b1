/**
  The per-machine grub.cfg: how the base URL is taken apart, the kernel command line put
  together from it, and when a trailing slash on the URL makes no difference.
*/
module GrubTemplate {
  import opened Architectures
  import opened Options
  import opened Text
  import Sequences

  // ---- Taking the base URL apart ---------------------------------------------

  // The length of the part of `s` before the first of `stops`.
  function UpTo(s: string, stops: set<char>): (n: nat)
    ensures n <= |s| && (n < |s| ==> s[n] in stops)
    ensures forall i :: 0 <= i < n ==> s[i] !in stops
  {
    if s == [] || s[0] in stops then 0 else 1 + UpTo(s[1..], stops)
  }

  // The position of the last slash, 0 where there is none.
  function LastSlash(s: string): (n: nat)
    ensures n <= |s| && (s != [] ==> n < |s|) && (n > 0 ==> s[n] == '/')
    ensures forall i :: n < i < |s| ==> s[i] != '/'
  {
    if |s| <= 1 then 0 else if s[|s| - 1] == '/' then |s| - 1 else LastSlash(s[..|s| - 1])
  }

  predicate IsAsciiLetter(c: char) {
    'a' <= c <= 'z' || 'A' <= c <= 'Z'
  }

  predicate IsSchemeChar(c: char) {
    IsAsciiLetter(c) || '0' <= c <= '9' || c in {'+', '-', '.'}
  }

  function Lower(s: string): (t: string)
    ensures |t| == |s|
  {
    seq(|s|, i requires 0 <= i < |s| => if 'A' <= s[i] <= 'Z' then s[i] - 'A' + 'a' else s[i])
  }

  datatype Url = Url(scheme: string, netloc: string, path: string)

  predicate HasScheme(url: string) {
    var i := UpTo(url, {':'});
    0 < i < |url| && IsAsciiLetter(url[0]) && forall k :: 0 <= k < i ==> IsSchemeChar(url[k])
  }

  // What follows the scheme and its colon.
  function AfterScheme(url: string): string {
    if HasScheme(url) then url[UpTo(url, {':'}) + 1..] else url
  }

  function NetlocLength(rest: string): (n: nat)
    ensures n <= |rest|
  {
    if "//" <= rest then 2 + UpTo(rest[2..], {'/', '?', '#'}) else 0
  }

  // The rest of the URL after its network location.
  function Tail(url: string): string {
    AfterScheme(url)[NetlocLength(AfterScheme(url))..]
  }

  function Before(s: string, c: char): string {
    s[..UpTo(s, {c})]
  }

  // The path of the URL before its parameters are dropped.
  function PathOf(tail: string): string {
    Before(Before(tail, '#'), '?')
  }

  // Parameters follow the first semicolon of the last segment.
  function DropParams(path: string): string {
    var k := LastSlash(path);
    path[..k + UpTo(path[k..], {';'})]
  }

  function Scheme(url: string): string {
    if HasScheme(url) then Lower(Before(url, ':')) else ""
  }

  function Netloc(url: string): string {
    var n := NetlocLength(AfterScheme(url));
    if n == 0 then "" else AfterScheme(url)[2..n]
  }

  // Control characters and spaces in front of a URL are stripped off,
  function DropControls(s: string): (t: string)
    ensures |t| <= |s|
  {
    if s != [] && s[0] <= ' ' then DropControls(s[1..]) else s
  }

  // and tabs and line ends anywhere in it.
  function RemoveBreaks(s: string): string {
    if s == [] then []
    else (if s[0] in {'\t', '\r', '\n'} then [] else [s[0]]) + RemoveBreaks(s[1..])
  }

  function Clean(url: string): string {
    RemoveBreaks(DropControls(url))
  }

  lemma {:induction false} ControlsDropped(url: string) returns (front: string)
    ensures url == front + DropControls(url) && forall i :: 0 <= i < |front| ==> front[i] <= ' '
    ensures DropControls(url) == [] || DropControls(url)[0] > ' '
  {
    if url != [] && url[0] <= ' ' {
      front := ControlsDropped(url[1..]);
      front := [url[0]] + front;
    } else {
      front := [];
    }
  }

  lemma {:induction false} BreaksRemoved(s: string)
    ensures RemoveBreaks(s) == Sequences.Without(s, {'\t', '\r', '\n'})
  {
    if s == [] {
    } else {
      BreaksRemoved(s[1..]);
      assert s == [s[0]] + s[1..];
      Sequences.WithoutConcat([s[0]], s[1..], {'\t', '\r', '\n'});
      assert [s[0]][..0] == [];
    }
  }

  // What is stripped off in front, and what anywhere.
  lemma CleanIs(url: string)
    ensures exists front, rest ::
              && url == front + rest && (forall i :: 0 <= i < |front| ==> front[i] <= ' ')
              && (rest == [] || rest[0] > ' ') && Clean(url) == Sequences.Without(rest, {'\t', '\r', '\n'})
  {
    var front := ControlsDropped(url);
    BreaksRemoved(DropControls(url));
  }

  // urlparse, as far as the renderer uses it.
  function UrlParse(url: string): Url {
    var clean := Clean(url);
    Url(Scheme(clean), Netloc(clean), DropParams(PathOf(Tail(clean))))
  }

  function TrimSlashes(s: string): (t: string)
    ensures t <= s
  {
    if s != [] && s[|s| - 1] == '/' then TrimSlashes(s[..|s| - 1]) else s
  }

  // scheme://host:port/base/path without a trailing slash; None where it is not http(s).
  function Base(url: string): Option<string> {
    var u := UrlParse(url);
    if u.scheme == "http" || u.scheme == "https" then Some(u.scheme + "://" + u.netloc + TrimSlashes(u.path)) else None
  }

  // ---- The config ------------------------------------------------------------

  datatype Identity = Identity(mac: string, architecture: string, platform: string)

  datatype Error = NotHttp | UnsupportedArchitecture | UnsupportedProfile

  function DebianArchitecture(architecture: string): Option<string> {
    if architecture == "x86_64" then Some("amd64")
    else if architecture == "arm64" then Some("arm64")
    else if architecture == "i386" then Some("i386")
    else None
  }

  // `letters` are the characters outside ASCII that count as alphanumeric.
  predicate IsAlphanumeric(c: char, letters: set<char>) {
    IsAsciiLetter(c) || '0' <= c <= '9' || c in letters
  }

  // Alphanumeric once its dashes are removed, and not dashes alone.
  predicate ProfileSupported(profile: string, letters: set<char>) {
    && (exists i :: 0 <= i < |profile| && profile[i] != '-')
    && (forall i :: 0 <= i < |profile| && profile[i] != '-' ==> IsAlphanumeric(profile[i], letters))
  }

  function SquashfsFilename(architecture: string, profile: string, letters: set<char>): Result<string, Error> {
    if DebianArchitecture(architecture).None? then Err(UnsupportedArchitecture)
    else if !ProfileSupported(profile, letters) then Err(UnsupportedProfile)
    else Ok("fleetboot-" + profile + "-" + DebianArchitecture(architecture).value + ".squashfs")
  }

  const KERNEL_URL := "(tftp,${pxe_default_server})" + "/vmlinuz"
  const INITRD_URL := "(tftp,${pxe_default_server})" + "/initrd.img"

  // The words of the kernel command line.
  function CmdlineParts(server: string, token: string, squashfs: string, scratch: string, serial: bool): seq<string> {
    ["boot=live",
     "fetch=" + server + "/boot/" + token + "/" + squashfs,
     "ip=dhcp",
     "fleetboot.server=" + server + "/",
     "fleetboot.boot_token=" + token,
     "fleetboot.scratch=" + scratch]
    + if serial then ["console=tty0", "console=ttyS0,115200n8"] else ["quiet"]
  }

  function Event(token: string, state: string): string {
    "source (tftp,${pxe_default_server})/grub-event/" + token + "/" + state
  }

  function ConfigStart(identity: Identity, token: string, serial: bool): seq<string> {
    ["set timeout=0"]
    + (if serial then ["serial --unit=0 --speed=115200", "terminal_input --append serial", "terminal_output --append serial"] else [])
    + ["echo \"fleetboot: booting " + identity.mac + " " + identity.architecture + "/" + identity.platform + "\"",
       "echo \"fleetboot: > grub_running event\"",
       Event(token, "grub_running"),
       "echo \"fleetboot: > linux kernel\""]
  }

  function LinuxLine(cmdline: string): string {
    "linux " + KERNEL_URL + " " + cmdline
  }

  function ConfigEnd(token: string): seq<string> {
    ["echo \"fleetboot: > kernel_loaded event\"",
     Event(token, "kernel_loaded"),
     "echo \"fleetboot: > initrd\"",
     "initrd " + INITRD_URL,
     "echo \"fleetboot: > initrd_loaded event\"",
     Event(token, "initrd_loaded"),
     "echo \"fleetboot: > booting_kernel event\"",
     Event(token, "booting_kernel"),
     "echo \"fleetboot: handing off to kernel\"",
     "boot"]
  }

  function Config(identity: Identity, token: string, serial: bool, cmdline: string): string {
    Ended(ConfigStart(identity, token, serial)) + LinuxLine(cmdline) + "\n" + Ended(ConfigEnd(token))
  }

  function RenderCmdline(url: string, token: string, squashfs: Result<string, Error>, scratch: string, serial: bool): Result<string, Error> {
    if Base(url).None? then Err(NotHttp)
    else if squashfs.Err? then squashfs
    else Ok(JoinWith(CmdlineParts(Base(url).value, token, squashfs.value, scratch, serial), " "))
  }

  function RenderConfig(identity: Identity, url: string, token: string, profile: string, serial: bool,
      target: Option<string>, scratch: string, letters: set<char>): Result<string, Error> {
    // A missing or empty target architecture falls back to the one of the boot loader.
    var architecture := if target.Some? && target.value != "" then target.value else identity.architecture;
    var cmdline := RenderCmdline(url, token, SquashfsFilename(architecture, profile, letters), scratch, serial);
    if cmdline.Err? then cmdline else Ok(Config(identity, token, serial, cmdline.value))
  }

  // ---- What is rendered ------------------------------------------------------

  // There are images for these architectures, and the one fetched is for the machine's own.
  lemma ImageMatches(architecture: string)
    ensures DebianArchitecture(architecture).Some? <==> architecture in {"x86_64", "arm64", "i386"}
    ensures DebianArchitecture(architecture).Some? ==>
              DebianArchitecture(architecture).value in {"amd64", "arm64", "i386"}
              && SameArchitecture(architecture, DebianArchitecture(architecture).value)
  {
  }

  // Letters and digits once the dashes are taken out, and something left of them.
  ghost predicate NamesImage(profile: string, letters: set<char>) {
    var dashless := Sequences.Without(profile, {'-'});
    dashless != [] && forall c :: c in dashless ==> 'a' <= c <= 'z' || 'A' <= c <= 'Z' || '0' <= c <= '9' || c in letters
  }

  lemma SupportedIff(profile: string, letters: set<char>)
    ensures ProfileSupported(profile, letters) <==> NamesImage(profile, letters)
  {
    var dashless := Sequences.Without(profile, {'-'});
    Sequences.WithoutMembers(profile, {'-'});
    if dashless != [] {
      assert dashless[0] in dashless;
    }
    forall i | 0 <= i < |profile| && profile[i] != '-'
      ensures profile[i] in dashless
    {
    }
  }

  // What the image is built for is fetched, or where that is not said what the boot loader is.
  ghost function Wanted(identity: Identity, target: Option<string>): string {
    if target.None? || target == Some("") then identity.architecture else target.value
  }

  // Rendering fails exactly for a base URL that is not http(s), an architecture there are
  // no images for and a profile name no image can have, looked at in that order.
  lemma RendersIff(identity: Identity, url: string, token: string, profile: string, serial: bool,
      target: Option<string>, scratch: string, letters: set<char>)
    ensures var out := RenderConfig(identity, url, token, profile, serial, target, scratch, letters);
            var known := Wanted(identity, target) in {"x86_64", "arm64", "i386"};
            && (out == Err(NotHttp) <==> Base(url).None?)
            && (out == Err(UnsupportedArchitecture) <==> Base(url).Some? && !known)
            && (out == Err(UnsupportedProfile) <==> Base(url).Some? && known && !NamesImage(profile, letters))
            && (out.Ok? <==> Base(url).Some? && known && NamesImage(profile, letters))
  {
    ImageMatches(Wanted(identity, target));
    SupportedIff(profile, letters);
  }

  // The kernel command line: where the image of the machine's architecture is fetched,
  // the server and token to report with, the scratch mode and the console.
  ghost predicate BootsImage(cmdline: string, base: string, token: string, profile: string, debian: string,
                             scratch: string, serial: bool)
  {
    cmdline == JoinWith(["boot=live", "fetch=" + base + "/boot/" + token + "/" + ("fleetboot-" + profile + "-" + debian + ".squashfs"),
                         "ip=dhcp", "fleetboot.server=" + base + "/", "fleetboot.boot_token=" + token,
                         "fleetboot.scratch=" + scratch]
                        + if serial then ["console=tty0", "console=ttyS0,115200n8"] else ["quiet"], " ")
  }

  ghost function DevicePath(file: string): string {
    "(tftp,${pxe_default_server})" + file
  }

  ghost function EventLine(token: string, state: string): string {
    "source (tftp,${pxe_default_server})/grub-event/" + token + "/" + state
  }

  // The last lines load the kernel with this command line, then the initrd, and then boot,
  // each with its event.
  ghost predicate LoadsAndBoots(lines: seq<string>, token: string, cmdline: string) {
    var n := |lines|;
    && n > 10
    && lines[n - 11] == "linux " + DevicePath("/vmlinuz") + " " + cmdline
    && lines[n - 9] == EventLine(token, "kernel_loaded")
    && lines[n - 7] == "initrd " + DevicePath("/initrd.img")
    && lines[n - 5] == EventLine(token, "initrd_loaded")
    && lines[n - 3] == EventLine(token, "booting_kernel")
    && lines[n - 1] == "boot"
  }

  // The lines before say which machine boots and that GRUB runs, on the serial console too
  // where that is asked for.
  ghost predicate Announces(lines: seq<string>, identity: Identity, token: string, serial: bool) {
    var n := |lines|;
    && n == (if serial then 19 else 16) && lines[0] == "set timeout=0"
    && (serial ==> lines[1..4] == ["serial --unit=0 --speed=115200", "terminal_input --append serial", "terminal_output --append serial"])
    && lines[n - 15] == "echo \"fleetboot: booting " + identity.mac + " " + identity.architecture + "/" + identity.platform + "\""
    && lines[n - 13] == EventLine(token, "grub_running")
  }

  lemma StartAnnounces(identity: Identity, token: string, serial: bool, rest: seq<string>)
    requires |rest| == 11
    ensures Announces(ConfigStart(identity, token, serial) + rest, identity, token, serial)
  {
    var start := ConfigStart(identity, token, serial);
    var lines := start + rest;
    assert |start| == if serial then 8 else 5;
    assert lines[|start| - 4] == start[|start| - 4] && lines[|start| - 2] == start[|start| - 2];
    if serial {
      assert lines[1..4] == start[1..4];
    }
  }

  lemma ConfigIsLines(identity: Identity, token: string, serial: bool, cmdline: string)
    ensures Config(identity, token, serial, cmdline)
         == Ended(ConfigStart(identity, token, serial) + ([LinuxLine(cmdline)] + ConfigEnd(token)))
  {
    LinesAround(ConfigStart(identity, token, serial), LinuxLine(cmdline), ConfigEnd(token));
  }

  lemma LinesAround(start: seq<string>, line: string, end: seq<string>)
    ensures Ended(start + ([line] + end)) == Ended(start) + line + "\n" + Ended(end)
  {
    EndedConcat(start, [line] + end);
    assert ([line] + end)[1..] == end;
    Sequences.ConcatAssociative(Ended(start), line + "\n", Ended(end));
    Sequences.ConcatAssociative(Ended(start), line, "\n");
  }

  lemma EndLoads(start: seq<string>, token: string, cmdline: string)
    ensures LoadsAndBoots(start + ([LinuxLine(cmdline)] + ConfigEnd(token)), token, cmdline)
  {
    var end := ConfigEnd(token);
    var lines := start + ([LinuxLine(cmdline)] + end);
    assert forall k :: 0 <= k < 10 ==> lines[|lines| - 10 + k] == end[k];
    assert lines[|lines| - 11] == LinuxLine(cmdline);
  }

  // The config announces the machine, loads the kernel, then the initrd, and boots.
  lemma ConfigLoadsAndBoots(identity: Identity, token: string, serial: bool, cmdline: string)
    ensures exists lines :: Config(identity, token, serial, cmdline) == Ended(lines)
                            && Announces(lines, identity, token, serial) && LoadsAndBoots(lines, token, cmdline)
  {
    ConfigIsLines(identity, token, serial, cmdline);
    StartAnnounces(identity, token, serial, [LinuxLine(cmdline)] + ConfigEnd(token));
    EndLoads(ConfigStart(identity, token, serial), token, cmdline);
  }

  // A rendered config boots the image of the machine's architecture.
  lemma RendersImage(identity: Identity, url: string, token: string, profile: string, serial: bool,
      target: Option<string>, scratch: string, letters: set<char>)
    requires RenderConfig(identity, url, token, profile, serial, target, scratch, letters).Ok?
    ensures exists debian, cmdline, lines ::
              && debian in {"amd64", "arm64", "i386"} && SameArchitecture(Wanted(identity, target), debian)
              && BootsImage(cmdline, Base(url).value, token, profile, debian, scratch, serial)
              && RenderConfig(identity, url, token, profile, serial, target, scratch, letters).value == Ended(lines)
              && Announces(lines, identity, token, serial) && LoadsAndBoots(lines, token, cmdline)
  {
    ImageMatches(Wanted(identity, target));
    var debian := DebianArchitecture(Wanted(identity, target)).value;
    var squashfs := SquashfsFilename(Wanted(identity, target), profile, letters);
    CmdlineBoots(Base(url).value, token, profile, debian, scratch, serial);
    var cmdline := JoinWith(CmdlineParts(Base(url).value, token, squashfs.value, scratch, serial), " ");
    ConfigLoadsAndBoots(identity, token, serial, cmdline);
  }

  lemma CmdlineBoots(base: string, token: string, profile: string, debian: string, scratch: string, serial: bool)
    ensures BootsImage(JoinWith(CmdlineParts(base, token, "fleetboot-" + profile + "-" + debian + ".squashfs", scratch, serial), " "),
                       base, token, profile, debian, scratch, serial)
  {
  }

  // ---- A trailing slash ------------------------------------------------------

  lemma {:induction false} DropControlsSlash(s: string)
    ensures DropControls(s + "/") == DropControls(s) + "/"
  {
    if s == [] || s[0] > ' ' {
      assert (s + "/")[0] > ' ';
    } else {
      assert (s + "/")[1..] == s[1..] + "/";
      DropControlsSlash(s[1..]);
    }
  }

  lemma {:induction false} RemoveBreaksSlash(s: string)
    ensures RemoveBreaks(s + "/") == RemoveBreaks(s) + "/"
  {
    if s == [] {
      assert s + "/" == "/" && "/"[1..] == "";
    } else {
      assert (s + "/")[1..] == s[1..] + "/";
      RemoveBreaksSlash(s[1..]);
    }
  }

  lemma CleanSlash(url: string)
    ensures Clean(url + "/") == Clean(url) + "/"
  {
    DropControlsSlash(url);
    RemoveBreaksSlash(DropControls(url));
  }

  lemma {:induction false} NothingToRemove(s: string)
    requires forall i :: 0 <= i < |s| ==> s[i] !in {'\t', '\r', '\n'}
    ensures RemoveBreaks(s) == s
  {
    if s == [] {
    } else {
      NothingToRemove(s[1..]);
    }
  }

  lemma {:induction false} UpToAppend(s: string, t: string, stops: set<char>)
    ensures UpTo(s, stops) < |s| ==> UpTo(s + t, stops) == UpTo(s, stops)
    ensures UpTo(s, stops) == |s| ==> UpTo(s + t, stops) == |s| + UpTo(t, stops)
  {
    if s == [] {
      assert s + t == t;
    } else {
      assert (s + t)[1..] == s[1..] + t;
      UpToAppend(s[1..], t, stops);
    }
  }

  lemma BeforeAppend(s: string, t: string, c: char)
    ensures Before(s + t, c) == if c in s then Before(s, c) else s + Before(t, c)
  {
    UpToAppend(s, t, {c});
    var n := UpTo(s, {c});
    if c in s {
      var i :| 0 <= i < |s| && s[i] == c;
      assert n < |s|;
      assert (s + t)[..n] == s[..n];
    } else {
      assert n == |s|;
      assert (s + t)[..n + UpTo(t, {c})] == s + t[..UpTo(t, {c})];
    }
  }

  lemma SlashKeepsScheme(url: string)
    ensures HasScheme(url + "/") == HasScheme(url) && Scheme(url + "/") == Scheme(url)
    ensures HasScheme(url) ==> AfterScheme(url + "/") == AfterScheme(url) + "/"
  {
    var i, j := UpTo(url, {':'}), UpTo(url + "/", {':'});
    UpToAppend(url, "/", {':'});
    if i < |url| {
      assert j == i && (url + "/")[..i] == url[..i];
      assert forall k :: 0 <= k < i ==> (url + "/")[k] == url[k];
      assert (url + "/")[i + 1..] == url[i + 1..] + "/";
    }
  }

  // A slash at the very end of the path: no parameters, and trimmed off again.
  lemma SlashEndsPath(path: string)
    ensures TrimSlashes(DropParams(path + "/")) == TrimSlashes(path)
  {
    var s := path + "/";
    assert s[|s| - 1] == '/' && s[..|s| - 1] == path;
    assert LastSlash(s) == |path|;
    assert s[|path|..] == "/";
    assert DropParams(s) == s;
  }

  ghost predicate ParamsInLastSegment(path: string) {
    exists i :: LastSlash(path) <= i < |path| && path[i] == ';'
  }

  lemma DropParamsOf(path: string)
    ensures !ParamsInLastSegment(path) ==> DropParams(path) == path
    ensures ParamsInLastSegment(path) ==> |DropParams(path)| < |path| && DropParams(path) <= path && TrimSlashes(path) == path
  {
  }

  // How long the path is after trimming tells whether the slash mattered.
  lemma SlashOnPath(path: string)
    ensures |TrimSlashes(DropParams(path + "/"))| == |TrimSlashes(DropParams(path))| <==> !ParamsInLastSegment(path)
    ensures !ParamsInLastSegment(path) ==> TrimSlashes(DropParams(path + "/")) == TrimSlashes(DropParams(path))
  {
    SlashEndsPath(path);
    DropParamsOf(path);
  }

  lemma SlashOnTail(tail: string)
    ensures ('#' in tail || '?' in tail) ==> PathOf(tail + "/") == PathOf(tail)
    ensures '#' !in tail && '?' !in tail ==> PathOf(tail) == tail && PathOf(tail + "/") == tail + "/"
  {
    BeforeAppend(tail, "/", '#');
    BeforeAppend(tail, "", '#');
    assert tail + "" == tail;
    if '#' !in tail {
      BeforeAppend(tail, "/", '?');
      BeforeAppend(tail, "", '?');
    }
  }

  lemma SlashOnRest(rest: string)
    requires "//" <= rest || rest != "/"
    ensures NetlocLength(rest + "/") == NetlocLength(rest)
  {
    if "//" <= rest {
      assert (rest + "/")[2..] == rest[2..] + "/";
      assert (rest + "/")[..2] == rest[..2];
      UpToAppend(rest[2..], "/", {'/', '?', '#'});
      assert UpTo("/", {'/', '?', '#'}) == 0;
    } else if |rest| >= 2 {
      assert (rest + "/")[..2] == rest[..2] == [rest[0], rest[1]];
    } else if |rest| == 1 {
      assert rest == [rest[0]];
      assert (rest + "/")[0] == rest[0] != "//"[0];
    }
  }

  // The base URLs whose meaning a trailing slash changes: those that end in a path
  // segment with parameters, and so without a query or a fragment.
  ghost predicate EndsInParams(url: string) {
    ParamsAtEnd(Tail(Clean(url)))
  }

  ghost predicate ParamsAtEnd(tail: string) {
    '#' !in tail && '?' !in tail && ParamsInLastSegment(tail)
  }

  // The trimmed path the base URL contributes.
  function BasePath(tail: string): string {
    TrimSlashes(DropParams(PathOf(tail)))
  }

  lemma SlashOnBasePath(tail: string)
    ensures '#' in tail || '?' in tail ==> BasePath(tail + "/") == BasePath(tail)
    ensures '#' !in tail && '?' !in tail ==>
              && (|BasePath(tail + "/")| == |BasePath(tail)| <==> !ParamsInLastSegment(tail))
              && (!ParamsInLastSegment(tail) ==> BasePath(tail + "/") == BasePath(tail))
  {
    SlashOnTail(tail);
    SlashOnPath(tail);
  }

  lemma SlashOnNetloc(url: string)
    requires HasScheme(url)
    ensures Netloc(url + "/") == Netloc(url)
    ensures AfterScheme(url) != "/" ==> Tail(url + "/") == Tail(url) + "/"
    ensures AfterScheme(url) == "/" ==> Tail(url + "/") == "" && Tail(url) == "/"
  {
    SlashKeepsScheme(url);
    var rest := AfterScheme(url);
    if rest == "/" {
      assert rest + "/" == "//";
    } else {
      SlashOnRest(rest);
      SlashAfter(rest, NetlocLength(rest));
    }
  }

  lemma SlashAfter(rest: string, n: nat)
    requires n <= |rest|
    ensures (rest + "/")[n..] == rest[n..] + "/"
    ensures n >= 2 ==> (rest + "/")[2..n] == rest[2..n]
  {
  }

  lemma NoPath()
    ensures BasePath("/") == "" && BasePath("") == "" && !ParamsInLastSegment("/")
  {
  }

  predicate IsHttp(scheme: string) {
    scheme == "http" || scheme == "https"
  }

  lemma BaseIs(url: string)
    ensures var clean := Clean(url);
            && (Base(url).Some? <==> IsHttp(Scheme(clean)))
            && (Base(url).Some? ==>
                  HasScheme(clean) && Base(url).value == Scheme(clean) + "://" + Netloc(clean) + BasePath(Tail(clean)))
  {
  }

  lemma SlashOnBase(url: string)
    ensures Base(url + "/").Some? == Base(url).Some?
    ensures Base(url).Some? ==> (|Base(url + "/").value| == |Base(url).value| <==> !EndsInParams(url))
    ensures Base(url).Some? && !EndsInParams(url) ==> Base(url + "/") == Base(url)
  {
    CleanSlash(url);
    SlashKeepsScheme(Clean(url));
    BaseIs(url);
    BaseIs(url + "/");
    if IsHttp(Scheme(Clean(url))) {
      SlashOnNetloc(Clean(url));
      SlashOnTailPath(Clean(url));
    }
  }

  lemma SlashOnTailPath(url: string)
    requires HasScheme(url)
    ensures |BasePath(Tail(url + "/"))| == |BasePath(Tail(url))| <==> !ParamsAtEnd(Tail(url))
    ensures !ParamsAtEnd(Tail(url)) ==> BasePath(Tail(url + "/")) == BasePath(Tail(url))
  {
    SlashOnNetloc(url);
    NoPath();
    SlashOnBasePath(Tail(url));
  }

  // ---- From the base to the text ---------------------------------------------

  lemma {:induction false} JoinReplaced(ws: seq<string>, i: nat, w: string)
    requires i < |ws|
    ensures |JoinWith(ws[i := w], " ")| == |JoinWith(ws, " ")| - |ws[i]| + |w|
  {
    if |ws| > 1 {
      if i == 0 {
        assert ws[0 := w][1..] == ws[1..];
      } else {
        assert ws[i := w][1..] == ws[1..][i - 1 := w];
        JoinReplaced(ws[1..], i - 1, w);
      }
    } else {
      assert ws[i := w] == [w];
    }
  }

  lemma CmdlineLength(a: string, b: string, token: string, squashfs: string, scratch: string, serial: bool)
    ensures |JoinWith(CmdlineParts(b, token, squashfs, scratch, serial), " ")|
         == |JoinWith(CmdlineParts(a, token, squashfs, scratch, serial), " ")| + 2 * (|b| - |a|)
  {
    var ws := CmdlineParts(a, token, squashfs, scratch, serial);
    var fetch, server := "fetch=" + b + "/boot/" + token + "/" + squashfs, "fleetboot.server=" + b + "/";
    JoinReplaced(ws, 1, fetch);
    JoinReplaced(ws[1 := fetch], 3, server);
    assert ws[1 := fetch][3 := server] == CmdlineParts(b, token, squashfs, scratch, serial);
  }

  lemma SlashOnCmdline(url: string, token: string, squashfs: Result<string, Error>, scratch: string, serial: bool)
    ensures var with := RenderCmdline(url + "/", token, squashfs, scratch, serial);
            var without := RenderCmdline(url, token, squashfs, scratch, serial);
            if without.Err? then with == without
            else with.Ok? && if EndsInParams(url) then |with.value| != |without.value| else with == without
  {
    SlashOnBase(url);
    if Base(url).Some? && squashfs.Ok? {
      CmdlineLength(Base(url).value, Base(url + "/").value, token, squashfs.value, scratch, serial);
    }
  }

  lemma ConfigLength(identity: Identity, token: string, serial: bool, a: string, b: string)
    requires |a| != |b|
    ensures Config(identity, token, serial, a) != Config(identity, token, serial, b)
  {
  }

  // Exactly when a trailing slash on the base URL renders the same config.
  lemma TrailingSlash(identity: Identity, url: string, token: string, profile: string, serial: bool,
      target: Option<string>, scratch: string, letters: set<char>)
    ensures var with := RenderConfig(identity, url + "/", token, profile, serial, target, scratch, letters);
            var without := RenderConfig(identity, url, token, profile, serial, target, scratch, letters);
            with == without <==> without.Err? || !EndsInParams(url)
  {
    var architecture := if target.Some? && target.value != "" then target.value else identity.architecture;
    var squashfs := SquashfsFilename(architecture, profile, letters);
    SlashOnCmdline(url, token, squashfs, scratch, serial);
    var with, without := RenderCmdline(url + "/", token, squashfs, scratch, serial), RenderCmdline(url, token, squashfs, scratch, serial);
    if without.Ok? && EndsInParams(url) {
      ConfigLength(identity, token, serial, with.value, without.value);
    }
  }

  lemma {:induction false} UpToNone(s: string, stops: set<char>)
    requires forall i :: 0 <= i < |s| ==> s[i] !in stops
    ensures UpTo(s, stops) == |s|
  {
    if s == [] {
    } else {
      UpToNone(s[1..], stops);
    }
  }

  // `written` is `word` in any mixture of cases.
  ghost predicate InAnyCase(written: string, word: string) {
    |written| == |word| && forall i :: 0 <= i < |word| ==>
      written[i] == word[i] || ('a' <= word[i] <= 'z' && written[i] == word[i] - 'a' + 'A')
  }

  lemma LowerOf(written: string, word: string)
    requires InAnyCase(written, word) && forall i :: 0 <= i < |word| ==> 'a' <= word[i] <= 'z'
    ensures Lower(written) == word && forall i :: 0 <= i < |written| ==> IsAsciiLetter(written[i])
  {
  }

  lemma HttpScheme(written: string, scheme: string, rest: string)
    requires (scheme == "http" || scheme == "https") && InAnyCase(written, scheme)
    ensures var url := written + ":" + rest;
            HasScheme(url) && AfterScheme(url) == rest && Scheme(url) == scheme
  {
    var url := written + ":" + rest;
    assert url == written + (":" + rest);
    LowerOf(written, scheme);
    UpToNone(written, {':'});
    UpToAppend(written, ":" + rest, {':'});
    assert url[..|written|] == written && url[|written| + 1..] == rest;
  }

  // How an ordinary base URL is taken apart.
  lemma HttpUrl(written: string, scheme: string, host: string, path: string)
    requires (scheme == "http" || scheme == "https") && InAnyCase(written, scheme)
    requires (forall i :: 0 <= i < |host| ==> host[i] !in {'/', '?', '#'})
    requires path == [] || path[0] in {'/', '?', '#'}
    ensures var url := written + ":" + ("//" + host + path);
            HasScheme(url) && Scheme(url) == scheme && Netloc(url) == host && Tail(url) == path
  {
    var rest := "//" + host + path;
    HttpScheme(written, scheme, rest);
    assert rest[..2] == "//" && rest[2..] == host + path;
    UpToNone(host, {'/', '?', '#'});
    UpToAppend(host, path, {'/', '?', '#'});
    assert NetlocLength(rest) == 2 + |host|;
    assert rest[2..2 + |host|] == host && rest[2 + |host|..] == path;
  }

  ghost predicate PlainPath(path: string) {
    && (path == [] || (path[0] == '/' && path[|path| - 1] != '/'))
    && forall i :: 0 <= i < |path| ==> path[i] !in {'?', '#', ';'}
  }

  ghost predicate OnlySlashes(s: string) {
    forall i :: 0 <= i < |s| ==> s[i] == '/'
  }

  lemma BeforeQuery(path: string, query: string)
    requires forall i :: 0 <= i < |path| ==> path[i] !in {'?', '#'}
    requires query == [] || query[0] in {'?', '#'}
    ensures PathOf(path + query) == path
  {
    UpToNone(path, {'#'});
    UpToNone(path, {'?'});
    UpToAppend(path, query, {'#'});
    var n := UpTo(query, {'#'});
    assert (path + query)[..|path| + n] == path + query[..n];
    UpToAppend(path, query[..n], {'?'});
    assert (path + query[..n])[..|path|] == path;
    assert n > 0 ==> query[..n][0] == query[0];
  }

  lemma NoParams(path: string)
    requires forall i :: 0 <= i < |path| ==> path[i] != ';'
    ensures DropParams(path) == path
  {
    var k := LastSlash(path);
    UpToNone(path[k..], {';'});
  }

  lemma {:induction false} SlashesTrimmed(path: string, slashes: string)
    requires OnlySlashes(slashes) && (path == [] || path[|path| - 1] != '/')
    ensures TrimSlashes(path + slashes) == path
  {
    if slashes == [] {
      assert path + slashes == path;
    } else {
      var front := slashes[..|slashes| - 1];
      assert (path + slashes)[..|path + slashes| - 1] == path + front;
      SlashesTrimmed(path, front);
    }
  }

  lemma BasePathOf(path: string, slashes: string, query: string)
    requires PlainPath(path) && OnlySlashes(slashes) && (query == [] || query[0] in {'?', '#'})
    ensures BasePath(path + slashes + query) == path
  {
    BeforeQuery(path + slashes, query);
    NoParams(path + slashes);
    SlashesTrimmed(path, slashes);
  }

  lemma TailStarts(path: string, slashes: string, query: string)
    requires PlainPath(path) && OnlySlashes(slashes) && (query == [] || query[0] in {'?', '#'})
    ensures path + slashes + query == [] || (path + slashes + query)[0] in {'/', '?', '#'}
  {
    if path != [] {
      assert (path + slashes + query)[0] == path[0];
    } else if slashes != [] {
      assert (path + slashes + query)[0] == slashes[0];
    } else {
      assert path + slashes + query == query;
    }
  }

  // Of an ordinary base URL the scheme, the host and the path are kept; slashes at its end,
  // a query and a fragment are not.
  lemma BaseOfUrl(url: string, written: string, scheme: string, host: string, path: string, slashes: string, query: string)
    requires (scheme == "http" || scheme == "https") && InAnyCase(written, scheme)
    requires (forall i :: 0 <= i < |host| ==> host[i] !in {'/', '?', '#'})
    requires PlainPath(path) && OnlySlashes(slashes) && (query == [] || query[0] in {'?', '#'})
    requires Clean(url) == written + ":" + ("//" + host + (path + slashes + query))
    ensures Base(url) == Some(scheme + "://" + host + path)
  {
    TailStarts(path, slashes, query);
    HttpUrl(written, scheme, host, path + slashes + query);
    BaseIs(url);
    BasePathOf(path, slashes, query);
  }

  // A path of one segment that has parameters.
  ghost predicate OneSegmentWithParams(path: string) {
    && path != [] && path[0] == '/' && (forall i :: 1 <= i < |path| ==> path[i] !in {'/', '?', '#'})
    && exists i :: 1 <= i < |path| && path[i] == ';'
  }

  lemma {:induction false} NoSlashAfter(path: string)
    requires path != [] && forall i :: 1 <= i < |path| ==> path[i] != '/'
    ensures LastSlash(path) == 0
  {
    if |path| > 1 {
      NoSlashAfter(path[..|path| - 1]);
    }
  }

  function HttpOf(host: string, path: string): string {
    "http" + ":" + ("//" + host + path)
  }

  // Base URLs a trailing slash changes: the parameters of the last segment are dropped,
  // unless a slash makes them part of the path.
  lemma ParamsMatter(url: string, host: string, path: string)
    requires Clean(url) == HttpOf(host, path)
    requires (forall i :: 0 <= i < |host| ==> host[i] !in {'/', '?', '#'}) && OneSegmentWithParams(path)
    ensures EndsInParams(url) && Base(url).Some?
  {
    HttpUrl("http", "http", host, path);
    BaseIs(url);
    SegmentHasParams(path);
  }

  lemma SegmentHasParams(path: string)
    requires OneSegmentWithParams(path)
    ensures '#' !in path && '?' !in path && ParamsInLastSegment(path)
  {
    NoSlashAfter(path);
  }

  lemma DefaultSupported()
    ensures SquashfsFilename("x86_64", "default", {}).Ok?
  {
    assert "default"[0] != '-';
  }

  lemma RendersHttp(identity: Identity, url: string, token: string, serial: bool, scratch: string)
    requires Base(url).Some?
    ensures RenderConfig(identity, url, token, "default", serial, Some("x86_64"), scratch, {}).Ok?
  {
    DefaultSupported();
  }

  // http://h/a;v=1 is one such URL: its config changes with a slash.
  lemma SlashChangesConfig(identity: Identity, token: string, serial: bool, scratch: string)
    ensures var url := HttpOf("h", "/a;v=1");
            && RenderConfig(identity, url, token, "default", serial, Some("x86_64"), scratch, {}).Ok?
            && RenderConfig(identity, url + "/", token, "default", serial, Some("x86_64"), scratch, {})
               != RenderConfig(identity, url, token, "default", serial, Some("x86_64"), scratch, {})
  {
    var host, path := "h", "/a;v=1";
    var url := HttpOf(host, path);
    assert path[2] == ';';
    assert url[0] == 'h' && DropControls(url) == url;
    NothingToRemove(url);
    ParamsMatter(url, host, path);
    RendersHttp(identity, url, token, serial, scratch);
    TrailingSlash(identity, url, token, "default", serial, Some("x86_64"), scratch, {});
  }
}
