/**
 * Opening the SSH connection: the address dialled, the private key chosen,
 * the authentication methods offered and the one retry with a password.
 * The SSH library (key parsing and dialling), the terminal (the passphrase
 * and password the user types), the home directory lookup, the operating
 * system's name and the local files are inputs.
 */
module Conn {
  import opened Wrappers
  import opened Text
  import opened Paths
  import opened FileSystem

  /** A port number as it reaches Connect (Go's uint16); 0 means "not given". */
  newtype Port = p: int | 0 <= p < 0x1_0000

  const DefaultPort: string := "22"

  /** The private keys looked for, most preferred first. */
  const DefaultPrivateKeys: seq<string> := ["~/.ssh/id_ed25519", "~/.ssh/id_rsa", "~/.ssh/id_dsa", "~/.ssh/id_ecdsa"]

  /** The operating systems on which a default key is looked for. */
  const KeyOses: set<string> := {"linux", "darwin", "windows"}

  /** The text of a dial error that asks for other credentials. */
  const Unauthenticated: string := "unable to authenticate"

  /** The text of a key parse error that asks for a passphrase. */
  const Encrypted: string := "cannot decode private keys"

  /** A parsed private key; the library's value is not looked into. */
  datatype Signer = Signer(id: nat)

  datatype Parsed = Parsed(signer: Signer) | ParseFailed(message: string)

  datatype Auth = PublicKeys(signer: Signer) | Password(password: string)

  /** The part of ssh.ClientConfig that varies: the user and the methods offered, in order. */
  datatype ClientConfig = ClientConfig(user: string, auth: seq<Auth>)

  /** An established SSH client; the library's value is not looked into. */
  datatype Client = Client(id: nat)

  datatype Dialed = Connected(client: Client) | DialFailed(message: string)

  /** One call of ssh.Dial: the address and the configuration it was given. */
  datatype Dial = Dial(addr: string, config: ClientConfig)

  /** What Connect asks the user on the terminal. */
  datatype Prompt = PassphrasePrompt | PasswordPrompt

  datatype ConnError =
    | HomeError
    | ReadKeyError(path: string)
    | PassphraseReadError
    | PassphraseParseError(message: string)
    | KeyParseError(message: string)
    | PasswordReadError
    | PasswordDialError(message: string)
    | DialError(message: string)

  /**
   * What the process sees: runtime.GOOS, os.UserHomeDir (None when it fails,
   * as it does on Unix when $HOME is empty), the local files, and what the
   * user answers to the passphrase and password prompts (None when reading
   * the terminal fails).
   */
  datatype Env = Env(goos: string, home: Option<string>, fs: Fs, passphrase: Option<Bytes>, password: Option<string>)

  /** The SSH library: ssh.ParsePrivateKey, ssh.ParsePrivateKeyWithPassphrase and ssh.Dial. */
  datatype Ssh = Ssh(parse: Bytes -> Parsed, parseWith: (Bytes, Bytes) -> Parsed, dial: (string, ClientConfig) -> Dialed)

  // ---------------------------------------------------------------------------
  // The address.

  /** The port Connect dials: 22 when none is given. */
  function EffectivePort(port: Port): nat
  {
    if port > 0 then port as int else 22
  }

  /** The port as text: the decimal digits of the port dialled. */
  function PortString(port: Port): (s: string)
    ensures |s| >= 1 && forall i :: 0 <= i < |s| ==> '0' <= s[i] <= '9'
    ensures DecimalValue(s) == EffectivePort(port)
  {
    if port > 0 then
      DecimalRoundTrip(port as int);
      Decimal(port as int)
    else DefaultPort
  }

  /** net.JoinHostPort: a host holding a colon (an IPv6 literal) is put in brackets. */
  function JoinHostPort(host: string, port: string): string
  {
    if ':' in host then "[" + host + "]:" + port else host + ":" + port
  }

  function Address(host: string, port: Port): string
  {
    JoinHostPort(host, PortString(port))
  }

  /** Index of the last colon, or -1. */
  function LastColon(s: string): (i: int)
    ensures -1 <= i < |s|
    ensures i >= 0 ==> s[i] == ':'
    ensures forall j :: i < j < |s| ==> s[j] != ':'
    decreases |s|
  {
    if s == [] then -1 else if s[|s| - 1] == ':' then |s| - 1 else LastColon(s[..|s| - 1])
  }

  predicate Bracketed(h: string)
  {
    |h| >= 2 && h[0] == '[' && h[|h| - 1] == ']'
  }

  /**
   * net.SplitHostPort on well-formed addresses: the port follows the last
   * colon, and brackets around the host are dropped.
   */
  function SplitHostPort(addr: string): Option<(string, string)>
  {
    var i := LastColon(addr);
    if i < 0 then None
    else
      var h := addr[..i];
      Some((if Bracketed(h) then h[1..|h| - 1] else h, addr[i + 1..]))
  }

  /**
   * The address dialled splits back into the host and a port whose value is
   * the port given, or 22 when none is.  A host already in brackets without a
   * colon loses its brackets, as it does with Go's net package.
   */
  lemma AddressRoundTrip(host: string, port: Port)
    requires ':' in host || !Bracketed(host)
    ensures SplitHostPort(Address(host, port)) == Some((host, PortString(port)))
    ensures DecimalValue(SplitHostPort(Address(host, port)).value.1) == EffectivePort(port)
  {
    var p := PortString(port);
    var hp := if ':' in host then "[" + host + "]" else host;
    assert Address(host, port) == hp + ":" + p;
    assert ':' !in p by {
      forall k | 0 <= k < |p| ensures p[k] != ':' {
      }
    }
    LastColonBefore(hp, p);
    if ':' in host {
      assert hp[1..|hp| - 1] == host;
    }
  }

  /**
   * The last colon of `h:p` is the one after `h` when `p` holds none, so the
   * address splits back into `h` and `p`.
   */
  lemma LastColonBefore(h: string, p: string)
    requires ':' !in p
    ensures LastColon(h + ":" + p) == |h|
    ensures (h + ":" + p)[..|h|] == h && (h + ":" + p)[|h| + 1..] == p
  {
    var a := h + ":" + p;
    forall j | |h| < j < |a|
      ensures a[j] != ':'
    {
      IndexAfterColon(h, p, j);
    }
    IndexAfterColon(h, p, |h|);
    LastColonAt(a, |h|);
  }

  lemma IndexAfterColon(h: string, p: string, j: nat)
    requires j < |h| + 1 + |p|
    ensures |h + ":" + p| == |h| + 1 + |p|
    ensures (h + ":" + p)[j] == if j < |h| then h[j] else if j == |h| then ':' else p[j - |h| - 1]
  {
  }

  /** A colon with none after it is the last colon. */
  lemma LastColonAt(s: string, k: nat)
    requires k < |s| && s[k] == ':'
    requires forall j :: k < j < |s| ==> s[j] != ':'
    ensures LastColon(s) == k
  {
  }

  // ---------------------------------------------------------------------------
  // Key files.

  predicate HasTilde(path: string)
  {
    |path| > 0 && path[0] == '~'
  }

  /** expandPath: a leading "~" stands for the home directory. */
  function ExpandPath(path: string, home: Option<string>): Result<string, ConnError>
  {
    if HasTilde(path) then
      match home
      case None => Err(HomeError)
      case Some(h) => Ok(Join(h, path[1..]))
    else Ok(path)
  }

  /**
   * A "~/" path expands to the same place as joining the rest of it under the
   * home directory, and only a "~" path can fail.
   */
  lemma ExpandUnderHome(h: string, names: seq<string>)
    requires h != ""
    requires |names| >= 1 && forall i :: 0 <= i < |names| ==> Simple(names[i])
    ensures ExpandPath("~/" + JoinWith(names, Sep), Some(h)) == Ok(Join(h, JoinWith(names, Sep)))
  {
    var j := JoinWith(names, Sep);
    var p := "~/" + j;
    assert p[1..] == [Sep] + j by {
      assert p[1..] == "/" + j;
    }
    assert HasTilde(p);
    JoinLeadingSep(h, names);
  }

  lemma JoinLeadingSep(h: string, names: seq<string>)
    requires h != ""
    requires |names| >= 1 && forall i :: 0 <= i < |names| ==> Simple(names[i])
    ensures Join(h, [Sep] + JoinWith(names, Sep)) == Join(h, JoinWith(names, Sep))
  {
    DoubleSepParse(h, names);
  }

  /** An empty element between the home directory and the rest is dropped by Clean. */
  lemma DoubleSepParse(h: string, names: seq<string>)
    requires h != ""
    requires |names| >= 1 && forall i :: 0 <= i < |names| ==> Simple(names[i])
    ensures Parse(h + [Sep] + ([Sep] + JoinWith(names, Sep))) == Parse(h + [Sep] + JoinWith(names, Sep))
  {
    var ph := Split(h, Sep);
    DoubleSepSplit(h, names);
    var r := IsRooted(h);
    ReduceAppendSimple(ph + [""], names, r);
    ReduceAppendSimple(ph, names, r);
    assert (ph + [""])[..|ph|] == ph;
    assert Reduce(ph + [""], r) == Reduce(ph, r);
  }

  lemma DoubleSepSplit(h: string, names: seq<string>)
    requires forall i :: 0 <= i < |names| ==> Simple(names[i])
    requires |names| >= 1
    ensures Split(h + [Sep] + ([Sep] + JoinWith(names, Sep)), Sep) == (Split(h, Sep) + [""]) + names
    ensures Split(h + [Sep] + JoinWith(names, Sep), Sep) == Split(h, Sep) + names
  {
    var j := JoinWith(names, Sep);
    SplitJoin(names, Sep);
    SplitConcat(h, [Sep] + j, Sep);
    SplitConcat([], j, Sep);
    assert [] + [Sep] + j == [Sep] + j;
    SplitConcat(h, j, Sep);
  }

  /** Paths not starting with "~" are left alone, whatever the home lookup does. */
  lemma ExpandOthers(path: string, home: Option<string>)
    ensures ExpandPath(path, home).Err? <==> HasTilde(path) && home.None?
    ensures !HasTilde(path) ==> ExpandPath(path, home) == Ok(path)
  {
  }

  /** The three cases the repository's own expandPath test checks. */
  lemma ExpandPathExamples(h: string)
    requires h != ""
    ensures ExpandPath("~/.ssh/id_rsa", Some(h)) == Ok(Join(h, ".ssh/id_rsa"))
    ensures ExpandPath("/etc/hosts", Some(h)) == Ok("/etc/hosts")
    ensures ExpandPath("./config.yaml", Some(h)) == Ok("./config.yaml")
  {
    SshKeyPath("id_rsa");
    assert "~/" + JoinWith([".ssh", "id_rsa"], Sep) == "~/.ssh/id_rsa";
    assert JoinWith([".ssh", "id_rsa"], Sep) == ".ssh/id_rsa";
    ExpandUnderHome(h, [".ssh", "id_rsa"]);
  }

  lemma SshKeyPath(name: string)
    requires Simple(name)
    ensures JoinWith([".ssh", name], Sep) == ".ssh/" + name
    ensures Simple(".ssh")
  {
  }

  /** The default key is present: its expansion succeeds and something exists there. */
  predicate KeyPresent(path: string, home: Option<string>, fs: Fs)
  {
    var p := ExpandPath(path, home);
    p.Ok? && Lookup(fs, p.value).Found?
  }

  /** The first present key of a list, as written in the list; "" when none is. */
  function FirstPresent(keys: seq<string>, home: Option<string>, fs: Fs): string
    decreases |keys|
  {
    if keys == [] then ""
    else if KeyPresent(keys[0], home, fs) then keys[0]
    else FirstPresent(keys[1..], home, fs)
  }

  /** The key Connect falls back on. */
  function DefaultKey(goos: string, home: Option<string>, fs: Fs): string
  {
    if goos in KeyOses then FirstPresent(DefaultPrivateKeys, home, fs) else ""
  }

  /** findDefaultKey: the loop over the default keys, returning at the first one present. */
  method FindDefaultKey(goos: string, home: Option<string>, fs: Fs) returns (key: string)
    ensures key == DefaultKey(goos, home, fs)
  {
    if goos == "linux" || goos == "darwin" || goos == "windows" {
      var i := 0;
      while i < |DefaultPrivateKeys|
        invariant 0 <= i <= |DefaultPrivateKeys|
        invariant DefaultKey(goos, home, fs) == FirstPresent(DefaultPrivateKeys[i..], home, fs)
      {
        var path := DefaultPrivateKeys[i];
        assert DefaultPrivateKeys[i..][1..] == DefaultPrivateKeys[i + 1..];
        var keyPath := ExpandPath(path, home);
        if keyPath.Ok? {
          if Lookup(fs, keyPath.value).Found? {
            return path;
          }
        }
        i := i + 1;
      }
    }
    return "";
  }

  /** The first present key is the earliest present entry, and "" means none is. */
  lemma {:induction false} FirstPresentIsFirst(keys: seq<string>, home: Option<string>, fs: Fs)
    requires forall i :: 0 <= i < |keys| ==> keys[i] != ""
    ensures FirstPresent(keys, home, fs) == "" <==> forall i :: 0 <= i < |keys| ==> !KeyPresent(keys[i], home, fs)
    ensures FirstPresent(keys, home, fs) != "" ==>
      exists i :: 0 <= i < |keys| && FirstPresent(keys, home, fs) == keys[i] && KeyPresent(keys[i], home, fs)
        && forall j :: 0 <= j < i ==> !KeyPresent(keys[j], home, fs)
    decreases |keys|
  {
    if keys != [] {
      FirstPresentIsFirst(keys[1..], home, fs);
      if !KeyPresent(keys[0], home, fs) {
        assert forall i :: 1 <= i < |keys| ==> keys[i] == keys[1..][i - 1];
        if FirstPresent(keys, home, fs) != "" {
          var i :| 0 <= i < |keys[1..]| && FirstPresent(keys[1..], home, fs) == keys[1..][i] && KeyPresent(keys[1..][i], home, fs)
            && forall j :: 0 <= j < i ==> !KeyPresent(keys[1..][j], home, fs);
          assert forall j :: 0 <= j < i + 1 ==> !KeyPresent(keys[j], home, fs) by {
            forall j | 0 <= j < i + 1 ensures !KeyPresent(keys[j], home, fs) {
              if j > 0 { assert keys[j] == keys[1..][j - 1]; }
            }
          }
        }
      } else {
        assert FirstPresent(keys, home, fs) == keys[0];
      }
    }
  }

  /**
   * The default key is, in its "~/" form, the most preferred key whose
   * expansion exists; none on an operating system other than Linux, macOS
   * and Windows, or when no key exists.
   */
  lemma DefaultKeyIsFirst(goos: string, home: Option<string>, fs: Fs)
    ensures DefaultKey(goos, home, fs) == "" <==>
      goos !in KeyOses || forall i :: 0 <= i < |DefaultPrivateKeys| ==> !KeyPresent(DefaultPrivateKeys[i], home, fs)
    ensures DefaultKey(goos, home, fs) != "" ==>
      exists i :: 0 <= i < |DefaultPrivateKeys| && DefaultKey(goos, home, fs) == DefaultPrivateKeys[i]
        && KeyPresent(DefaultPrivateKeys[i], home, fs)
        && forall j :: 0 <= j < i ==> !KeyPresent(DefaultPrivateKeys[j], home, fs)
  {
    FirstPresentIsFirst(DefaultPrivateKeys, home, fs);
  }

  /** Where the repository's findDefaultKey test puts a key file: home/.ssh/name. */
  function TestKeyFile(h: string, name: string): string
  {
    Join(Join(h, ".ssh"), name)
  }

  /** The default key's expansion names the file the test creates. */
  lemma {:induction false} DefaultKeyLocation(h: string, name: string)
    requires h != "" && Simple(name)
    ensures ExpandPath("~/.ssh/" + name, Some(h)).Ok?
    ensures Key(ExpandPath("~/.ssh/" + name, Some(h)).value) == Key(TestKeyFile(h, name))
    ensures ExpandPath("~/.ssh/" + name, Some(h)).value != "" && TestKeyFile(h, name) != ""
  {
    SshKeyPath(name);
    assert "~/" + JoinWith([".ssh", name], Sep) == "~/.ssh/" + name;
    ExpandUnderHome(h, [".ssh", name]);
    ParseJoinChain(h, [".ssh", name]);
    ParseJoinName(h, ".ssh");
    var d := Join(h, ".ssh");
    assert IsRooted(d) == Parse(d).rooted == IsRooted(h);
    ParseJoinName(d, name);
    assert Parse(h).elems + [".ssh"] + [name] == Parse(h).elems + [".ssh", name];
    ParseEmpty();
  }

  /** A default key is present exactly when the file the test creates for it exists. */
  lemma PresentAsTestFile(h: string, name: string, fs: Fs)
    requires h != "" && Simple(name)
    ensures KeyPresent("~/.ssh/" + name, Some(h), fs) <==> Lookup(fs, TestKeyFile(h, name)).Found?
  {
    DefaultKeyLocation(h, name);
  }

  /**
   * The findDefaultKey test: with only home/.ssh/id_rsa present the key is
   * "~/.ssh/id_rsa"; once home/.ssh/id_ed25519 exists too, that one wins.
   */
  lemma DefaultKeyExamples(goos: string, h: string, fs: Fs)
    requires goos in KeyOses && h != ""
    requires Lookup(fs, TestKeyFile(h, "id_rsa")).Found?
    ensures Lookup(fs, TestKeyFile(h, "id_ed25519")).Missing? ==> DefaultKey(goos, Some(h), fs) == "~/.ssh/id_rsa"
    ensures Lookup(fs, TestKeyFile(h, "id_ed25519")).Found? ==> DefaultKey(goos, Some(h), fs) == "~/.ssh/id_ed25519"
  {
    var keys := DefaultPrivateKeys;
    DefaultKeysSpelled();
    PresentAsTestFile(h, "id_ed25519", fs);
    PresentAsTestFile(h, "id_rsa", fs);
    FirstOfTwo(keys, Some(h), fs);
  }

  lemma DefaultKeysSpelled()
    ensures DefaultPrivateKeys[0] == "~/.ssh/" + "id_ed25519"
    ensures DefaultPrivateKeys[1] == "~/.ssh/" + "id_rsa"
    ensures Simple("id_ed25519") && Simple("id_rsa")
  {
  }

  lemma FirstOfTwo(keys: seq<string>, home: Option<string>, fs: Fs)
    requires |keys| >= 2
    ensures KeyPresent(keys[0], home, fs) ==> FirstPresent(keys, home, fs) == keys[0]
    ensures !KeyPresent(keys[0], home, fs) && KeyPresent(keys[1], home, fs) ==> FirstPresent(keys, home, fs) == keys[1]
  {
    assert keys[1..][0] == keys[1];
  }

  /** ssh.ParsePrivateKey reports an error that asks for a passphrase. */
  predicate AsksPassphrase(fs: Fs, file: string, ssh: Ssh)
  {
    var buf := Read(fs, file);
    buf.Some? && ssh.parse(buf.value).ParseFailed? && Contains(ssh.parse(buf.value).message, Encrypted)
  }

  /**
   * signerFromKeyFile: read the file and parse it; an encrypted key is parsed
   * again with the passphrase the user types.
   */
  function SignerFromKeyFile(fs: Fs, file: string, ssh: Ssh, passphrase: Option<Bytes>): Result<Signer, ConnError>
  {
    match Read(fs, file)
    case None => Err(ReadKeyError(file))
    case Some(buf) =>
      match ssh.parse(buf)
      case Parsed(s) => Ok(s)
      case ParseFailed(m) =>
        if AsksPassphrase(fs, file, ssh) then
          match passphrase
          case None => Err(PassphraseReadError)
          case Some(p) =>
            match ssh.parseWith(buf, p)
            case Parsed(s) => Ok(s)
            case ParseFailed(m') => Err(PassphraseParseError(m'))
        else Err(KeyParseError(m))
  }

  /**
   * The passphrase is used only for a key whose plain parse asked for one:
   * otherwise the result is the same whatever the user would have typed.  A
   * signer returned is one the library parsed from the file's bytes.
   */
  lemma SignerUsesPassphraseOnlyWhenAsked(fs: Fs, file: string, ssh: Ssh, p1: Option<Bytes>, p2: Option<Bytes>)
    ensures !AsksPassphrase(fs, file, ssh) ==> SignerFromKeyFile(fs, file, ssh, p1) == SignerFromKeyFile(fs, file, ssh, p2)
    ensures SignerFromKeyFile(fs, file, ssh, p1).Ok? ==>
      Read(fs, file).Some? &&
      (ssh.parse(Read(fs, file).value) == Parsed(SignerFromKeyFile(fs, file, ssh, p1).value) ||
       (AsksPassphrase(fs, file, ssh) && p1.Some? &&
        ssh.parseWith(Read(fs, file).value, p1.value) == Parsed(SignerFromKeyFile(fs, file, ssh, p1).value)))
    ensures Read(fs, file).None? ==> SignerFromKeyFile(fs, file, ssh, p1) == Err(ReadKeyError(file))
  {
  }

  // ---------------------------------------------------------------------------
  // Connect.

  /** The key Connect tries: none with a forced password, the default key when none is given. */
  function ChosenKey(key: string, forcePassword: bool, env: Env): string
  {
    if forcePassword then "" else if key == "" then DefaultKey(env.goos, env.home, env.fs) else key
  }

  /** The methods of the first dial: a public key when the key expands and parses, else none. */
  function OfferedAuth(key: string, env: Env, ssh: Ssh): seq<Auth>
  {
    if key == "" then []
    else
      match ExpandPath(key, env.home)
      case Err(_) => []
      case Ok(p) =>
        match SignerFromKeyFile(env.fs, p, ssh, env.passphrase)
        case Ok(s) => [PublicKeys(s)]
        case Err(_) => []
  }

  /** The passphrase prompt reading the key shows, if any. */
  function KeyPrompts(key: string, env: Env, ssh: Ssh): seq<Prompt>
  {
    if key != "" && ExpandPath(key, env.home).Ok? && AsksPassphrase(env.fs, ExpandPath(key, env.home).value, ssh)
    then [PassphrasePrompt] else []
  }

  /** A dial error that asks for other credentials. */
  predicate Rejected(d: Dialed)
  {
    d.DialFailed? && Contains(d.message, Unauthenticated)
  }

  /**
   * Connect: dial with the public key if one could be loaded; if the server
   * refuses the credentials, ask for the password once and dial once more
   * with it alone.  Besides the result, the prompts shown and the dials made,
   * in order.
   */
  method Connect(host: string, port: Port, username: string, key: string, forcePassword: bool, env: Env, ssh: Ssh)
    returns (r: Result<Client, ConnError>, prompts: seq<Prompt>, dials: seq<Dial>)
    ensures |dials| >= 1
    ensures dials[0] == Dial(Address(host, port), ClientConfig(username, OfferedAuth(ChosenKey(key, forcePassword, env), env, ssh)))
    ensures var first := ssh.dial(dials[0].addr, dials[0].config);
      && prompts == KeyPrompts(ChosenKey(key, forcePassword, env), env, ssh) + (if Rejected(first) then [PasswordPrompt] else [])
      && (first.Connected? ==> r == Ok(first.client) && |dials| == 1)
      && (first.DialFailed? && !Rejected(first) ==> r == Err(DialError(first.message)) && |dials| == 1)
      && (Rejected(first) && env.password.None? ==> r == Err(PasswordReadError) && |dials| == 1)
      && (Rejected(first) && env.password.Some? ==>
            && |dials| == 2
            && dials[1] == Dial(dials[0].addr, ClientConfig(username, [Password(env.password.value)]))
            && var second := ssh.dial(dials[1].addr, dials[1].config);
            && (second.Connected? ==> r == Ok(second.client))
            && (second.DialFailed? ==> r == Err(PasswordDialError(second.message))))
  {
    var portStr := DefaultPort;
    if port > 0 {
      portStr := Decimal(port as int);
    }
    var addr := JoinHostPort(host, portStr);
    assert addr == Address(host, port);

    var chosen := key;
    if forcePassword {
      chosen := "";
    } else if chosen == "" {
      chosen := FindDefaultKey(env.goos, env.home, env.fs);
    }
    assert chosen == ChosenKey(key, forcePassword, env);

    var authMethods: seq<Auth> := [];
    prompts := [];
    if chosen != "" {
      var keyPath := ExpandPath(chosen, env.home);
      if keyPath.Ok? {
        if AsksPassphrase(env.fs, keyPath.value, ssh) {
          prompts := prompts + [PassphrasePrompt];
        }
        var signer := SignerFromKeyFile(env.fs, keyPath.value, ssh, env.passphrase);
        if signer.Ok? {
          authMethods := authMethods + [PublicKeys(signer.value)];
        }
      }
    }

    assert authMethods == OfferedAuth(chosen, env, ssh);
    assert prompts == KeyPrompts(chosen, env, ssh);
    var config := ClientConfig(username, authMethods);
    dials := [Dial(addr, config)];
    var first := ssh.dial(addr, config);
    assert first == ssh.dial(dials[0].addr, dials[0].config);
    if first.DialFailed? && Contains(first.message, Unauthenticated) {
      prompts := prompts + [PasswordPrompt];
      if env.password.None? {
        return Err(PasswordReadError), prompts, dials;
      }
      config := config.(auth := [Password(env.password.value)]);
      dials := dials + [Dial(addr, config)];
      var second := ssh.dial(addr, config);
      if second.DialFailed? {
        return Err(PasswordDialError(second.message)), prompts, dials;
      }
      return Ok(second.client), prompts, dials;
    } else if first.DialFailed? {
      return Err(DialError(first.message)), prompts, dials;
    }
    return Ok(first.client), prompts, dials;
  }

  /**
   * A forced password offers no key and reads none; without it, an empty key
   * falls back on the default key.  At most one public key is offered, and
   * only when the chosen key expands and loads.
   */
  lemma OfferedKeys(key: string, forcePassword: bool, env: Env, ssh: Ssh)
    ensures forcePassword ==> OfferedAuth(ChosenKey(key, forcePassword, env), env, ssh) == [] && KeyPrompts(ChosenKey(key, forcePassword, env), env, ssh) == []
    ensures !forcePassword && key == "" ==> ChosenKey(key, forcePassword, env) == DefaultKey(env.goos, env.home, env.fs)
    ensures var k := ChosenKey(key, forcePassword, env);
      OfferedAuth(k, env, ssh) != [] <==>
        k != "" && ExpandPath(k, env.home).Ok? && SignerFromKeyFile(env.fs, ExpandPath(k, env.home).value, ssh, env.passphrase).Ok?
    ensures var k := ChosenKey(key, forcePassword, env);
      OfferedAuth(k, env, ssh) != [] ==>
        OfferedAuth(k, env, ssh) == [PublicKeys(SignerFromKeyFile(env.fs, ExpandPath(k, env.home).value, ssh, env.passphrase).value)]
  {
  }
}
