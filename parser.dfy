/**
 * The `[user@]host:path` endpoint parser (pkg/transport/parser.go).
 *
 * The source matches `^(([A-Za-z0-9_-]+)@)?([A-Za-z0-9._-]+):(.*)$`.  The
 * model reads the same language directly: the text before the first colon is
 * `addr` or `user@addr`, and the text after it holds no newline (Go's `.`
 * does not match a newline and `$` anchors at the end of the text).
 */
module Parser {
  import opened Wrappers

  datatype ScpInfo = ScpInfo(username: string, address: string, path: string)

  predicate IsUserChar(c: char)
  {
    ('a' <= c <= 'z') || ('A' <= c <= 'Z') || ('0' <= c <= '9') || c == '_' || c == '-'
  }

  predicate IsAddrChar(c: char)
  {
    IsUserChar(c) || c == '.'
  }

  predicate IsUser(s: string)
  {
    |s| > 0 && forall i :: 0 <= i < |s| ==> IsUserChar(s[i])
  }

  predicate IsAddr(s: string)
  {
    |s| > 0 && forall i :: 0 <= i < |s| ==> IsAddrChar(s[i])
  }

  /** The index of the first occurrence of c. */
  function IndexOf(s: string, c: char): (r: Option<nat>)
    ensures r.None? <==> c !in s
    ensures r.Some? ==> r.value < |s| && s[r.value] == c && c !in s[..r.value]
    decreases |s|
  {
    if s == [] then None
    else if s[0] == c then Some(0)
    else match IndexOf(s[1..], c)
      case None => None
      case Some(i) =>
        assert s[..i + 1] == [s[0]] + s[1..][..i];
        Some(i + 1)
  }

  /** The regular expression, read as a relation: cli splits as user, address and path. */
  predicate RegexMatches(cli: string, user: string, addr: string, path: string)
  {
    && (user == "" || IsUser(user))
    && IsAddr(addr)
    && '\n' !in path
    && cli == (if user == "" then "" else user + "@") + addr + ":" + path
  }

  function Local(cli: string): ScpInfo
  {
    ScpInfo("", "", cli)
  }

  /** The user and address the text before the first colon holds, if it is one. */
  function SplitEndpoint(prefix: string): (r: Option<(string, string)>)
    ensures r.Some? ==> (r.value.0 == "" || IsUser(r.value.0)) && IsAddr(r.value.1)
    ensures r.Some? ==> prefix == (if r.value.0 == "" then "" else r.value.0 + "@") + r.value.1
  {
    match IndexOf(prefix, '@')
    case None => if IsAddr(prefix) then Some(("", prefix)) else None
    case Some(j) =>
      var user := prefix[..j];
      var addr := prefix[j + 1..];
      if IsUser(user) && IsAddr(addr) then
        assert prefix == user + "@" + addr;
        Some((user, addr))
      else None
  }

  /**
   * ParseScpCli: a remote endpoint when the text matches the expression and the
   * address is not a single letter standing alone (a drive letter such as
   * `C:`); otherwise a local path that is the whole input.
   */
  function ParseScpCli(cli: string): (info: ScpInfo)
    ensures info.address == "" ==> info == Local(cli)
    ensures info.username != "" ==> info.address != ""
    ensures info.address != "" ==> RegexMatches(cli, info.username, info.address, info.path)
    ensures info.address != "" && info.username == "" ==> |info.address| >= 2
  {
    match IndexOf(cli, ':')
    case None => Local(cli)
    case Some(i) =>
      var path := cli[i + 1..];
      if '\n' in path then Local(cli)
      else match SplitEndpoint(cli[..i])
        case None => Local(cli)
        case Some((user, addr)) =>
          SplitAtColon(cli, i);
          if |addr| == 1 && user == "" then Local(cli) else ScpInfo(user, addr, path)
  }

  /** The text is what comes before its colon, the colon, and what comes after. */
  lemma SplitAtColon(cli: string, i: nat)
    requires i < |cli| && cli[i] == ':'
    ensures cli == cli[..i] + ":" + cli[i + 1..]
  {
    assert cli == cli[..i] + [cli[i]] + cli[i + 1..];
  }

  // ---------------------------------------------------------------------------

  /** Any reading of the text by the expression is the one the parser returns. */
  lemma ParseComplete(cli: string, user: string, addr: string, path: string)
    requires RegexMatches(cli, user, addr, path)
    ensures ParseScpCli(cli) == (if |addr| == 1 && user == "" then Local(cli) else ScpInfo(user, addr, path))
  {
    var prefix := (if user == "" then "" else user + "@") + addr;
    assert cli == prefix + (":" + path);
    NoColonInEndpoint(user, addr);
    IndexAfterFree(prefix, ":" + path, ':');
    assert cli[..|prefix|] == prefix;
    assert cli[|prefix| + 1..] == path;
    SplitEndpointOf(user, addr);
  }

  lemma NoColonInEndpoint(user: string, addr: string)
    requires user == "" || IsUser(user)
    requires IsAddr(addr)
    ensures ':' !in (if user == "" then "" else user + "@") + addr
  {
    assert ':' !in addr by {
      forall k | 0 <= k < |addr| ensures addr[k] != ':' {
        assert IsAddrChar(addr[k]);
      }
    }
    assert ':' !in user by {
      forall k | 0 <= k < |user| ensures user[k] != ':' {
        assert IsUserChar(user[k]);
      }
    }
  }

  lemma SplitEndpointOf(user: string, addr: string)
    requires user == "" || IsUser(user)
    requires IsAddr(addr)
    ensures SplitEndpoint((if user == "" then "" else user + "@") + addr) == Some((user, addr))
  {
    assert '@' !in addr by {
      forall k | 0 <= k < |addr| ensures addr[k] != '@' {
        assert IsAddrChar(addr[k]);
      }
    }
    if user != "" {
      assert '@' !in user by {
        forall k | 0 <= k < |user| ensures user[k] != '@' {
          assert IsUserChar(user[k]);
        }
      }
      var prefix := user + "@" + addr;
      assert prefix == user + ("@" + addr);
      IndexAfterFree(user, "@" + addr, '@');
      assert prefix[..|user|] == user;
      assert prefix[|user| + 1..] == addr;
    } else {
      assert "" + addr == addr;
    }
  }

  lemma {:induction false} IndexAfterFree(a: string, b: string, c: char)
    requires c !in a && |b| > 0 && b[0] == c
    ensures IndexOf(a + b, c) == Some(|a|)
    decreases |a|
  {
    if a != [] {
      assert (a + b)[1..] == a[1..] + b;
      IndexAfterFree(a[1..], b, c);
    }
  }

  // The parser's table test, one lemma per case (pkg/transport/parser_test.go).

  lemma TableCase01()
    ensures ParseScpCli("user" + "@" + "server.example.com" + ":" + "/home/user/file.txt") == ScpInfo("user", "server.example.com", "/home/user/file.txt")
  {
    ParseComplete("user" + "@" + "server.example.com" + ":" + "/home/user/file.txt", "user", "server.example.com", "/home/user/file.txt");
  }

  lemma TableCase02()
    ensures ParseScpCli("server.example.com" + ":" + "/var/log/app.log") == ScpInfo("", "server.example.com", "/var/log/app.log")
  {
    ParseComplete("server.example.com" + ":" + "/var/log/app.log", "", "server.example.com", "/var/log/app.log");
  }

  lemma TableCase03()
    ensures ParseScpCli("root" + "@" + "192.168.1.1" + ":" + "~/backup/data.sql") == ScpInfo("root", "192.168.1.1", "~/backup/data.sql")
  {
    ParseComplete("root" + "@" + "192.168.1.1" + ":" + "~/backup/data.sql", "root", "192.168.1.1", "~/backup/data.sql");
  }

  lemma TableCase04()
    ensures ParseScpCli("10.0.0.5" + ":" + "/mnt/share/") == ScpInfo("", "10.0.0.5", "/mnt/share/")
  {
    ParseComplete("10.0.0.5" + ":" + "/mnt/share/", "", "10.0.0.5", "/mnt/share/");
  }

  lemma TableCase07()
    ensures ParseScpCli("my-user_1" + "@" + "dev-server.cloud" + ":" + "path_with-dash.log") == ScpInfo("my-user_1", "dev-server.cloud", "path_with-dash.log")
  {
    ParseComplete("my-user_1" + "@" + "dev-server.cloud" + ":" + "path_with-dash.log", "my-user_1", "dev-server.cloud", "path_with-dash.log");
  }

  lemma TableCase08()
    ensures ParseScpCli("host" + ":" + "") == ScpInfo("", "host", "")
  {
    ParseComplete("host" + ":" + "", "", "host", "");
  }

  lemma TableCase09()
    ensures ParseScpCli("user" + "@" + "host" + ":" + "") == ScpInfo("user", "host", "")
  {
    ParseComplete("user" + "@" + "host" + ":" + "", "user", "host", "");
  }

  lemma TableCase10()
    ensures ParseScpCli("winserver" + ":" + "C:\\path\\to\\file.txt") == ScpInfo("", "winserver", "C:\\path\\to\\file.txt")
  {
    ParseComplete("winserver" + ":" + "C:\\path\\to\\file.txt", "", "winserver", "C:\\path\\to\\file.txt");
  }

  lemma TableCase11()
    ensures ParseScpCli("admin" + "@" + "server.local" + ":" + "/D:/data/backup.db") == ScpInfo("admin", "server.local", "/D:/data/backup.db")
  {
    ParseComplete("admin" + "@" + "server.local" + ":" + "/D:/data/backup.db", "admin", "server.local", "/D:/data/backup.db");
  }

  lemma TableCase14()
    ensures ParseScpCli("user" + "@" + "host.net" + ":" + "//sharename/folder/") == ScpInfo("user", "host.net", "//sharename/folder/")
  {
    ParseComplete("user" + "@" + "host.net" + ":" + "//sharename/folder/", "user", "host.net", "//sharename/folder/");
  }

  /** Cases 5, 6 and 13 hold no colon; case 12 has a drive letter. */
  lemma TableCasesLocal()
    ensures ParseScpCli("/etc/hosts") == Local("/etc/hosts")
    ensures ParseScpCli("local/data.zip") == Local("local/data.zip")
    ensures ParseScpCli("\\\\unc-server\\share\\document.pdf") == Local("\\\\unc-server\\share\\document.pdf")
  {
    assert ':' !in "/etc/hosts";
    assert ':' !in "local/data.zip";
    assert ':' !in "\\\\unc-server\\share\\document.pdf";
  }

  lemma TableCase12()
    ensures ParseScpCli("E" + ":" + "\\Program Files (x86)\\app.exe") == Local("E" + ":" + "\\Program Files (x86)\\app.exe")
  {
    ParseComplete("E" + ":" + "\\Program Files (x86)\\app.exe", "", "E", "\\Program Files (x86)\\app.exe");
  }

  /** A lone letter before the colon is a drive letter; the same letter after `user@` is a host. */
  lemma DriveLetter(letter: char, user: string, rest: string)
    requires IsAddrChar(letter) && IsUser(user) && '\n' !in rest
    ensures ParseScpCli([letter] + ":" + rest) == Local([letter] + ":" + rest)
    ensures ParseScpCli(user + "@" + [letter] + ":" + rest) == ScpInfo(user, [letter], rest)
  {
    ParseComplete([letter] + ":" + rest, "", [letter], rest);
    ParseComplete(user + "@" + [letter] + ":" + rest, user, [letter], rest);
  }

  /** A newline after the colon makes the whole text a local path. */
  lemma NewlineIsLocal(cli: string, i: nat)
    requires i < |cli| && cli[i] == ':' && ':' !in cli[..i]
    requires '\n' in cli[i + 1..]
    ensures ParseScpCli(cli) == Local(cli)
  {
    assert IndexOf(cli, ':') == Some(i);
  }
}
