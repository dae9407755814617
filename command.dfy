/**
  The settings record and the rsync command line that `runRsyncCommand`
  assembles from it before handing it to the shell. The string is built
  exactly as the plugin builds it: values are interpolated between single or
  double quotes without escaping, and nothing is validated.
*/
module Command {
  import opened Text

  /** The plugin's settings record. `syncDirection` is typed 'pull' | 'push'
      but is persisted as free text, so it is kept as a string here. */
  datatype Settings = Settings(
    rsyncBinaryPath: string,
    remoteIP: string,
    sshPort: int,
    sshUsername: string,
    sshPassword: string,
    privateKeyPath: string,
    localDirPath: string,
    remoteDirPath: string,
    syncDirection: string,
    dryRun: bool,
    logFilePath: string,
    excludePatterns: seq<string>,
    scheduleInterval: int)

  const DefaultSettings: Settings := Settings(
    "", "", 22, "", "", "", "", "", "push", false, "", [], 0)

  /** The fixed flags placed between the binary and the ssh clause. */
  const RsyncFlags: string := " -avz --progress --stats --no-links --delete "

  /** The three forms of the ssh transport clause. */
  function KeyClause(port: int, key: string): string {
    "-e \"ssh -p " + IntToString(port) + " -i " + key + "\""
  }

  function PasswordClause(port: int, password: string): string {
    "-e \"sshpass -p '" + password + "' ssh -p " + IntToString(port) + " -o StrictHostKeyChecking=no\""
  }

  function PortClause(port: int): string {
    "-e \"ssh -p " + IntToString(port) + "\""
  }

  /** The `sshOptions` array: the clause chosen by precedence (a key path,
      then a username with a password, then the port alone). */
  function SshOptions(s: Settings): (opts: seq<string>)
    ensures |opts| == 1
  {
    if s.privateKeyPath != "" then [KeyClause(s.sshPort, s.privateKeyPath)]
    else if s.sshUsername != "" && s.sshPassword != "" then [PasswordClause(s.sshPort, s.sshPassword)]
    else [PortClause(s.sshPort)]
  }

  /** `user@ip:remote`, the remote operand. */
  function RemoteOperand(s: Settings): string {
    s.sshUsername + "@" + s.remoteIP + ":" + s.remoteDirPath
  }

  /** Everything before the two path operands: binary, flags, ssh clause. */
  function CommandHead(s: Settings): string {
    s.rsyncBinaryPath + RsyncFlags + Join(SshOptions(s), " ") + " "
  }

  /** The command as assigned by the push/pull branch; '' for any other
      direction, since neither branch assigns it then. */
  function BaseCommand(s: Settings): (r: string)
    ensures r == "" <==> s.syncDirection != "push" && s.syncDirection != "pull"
  {
    if s.syncDirection == "push" then CommandHead(s) + s.localDirPath + " " + RemoteOperand(s)
    else if s.syncDirection == "pull" then CommandHead(s) + RemoteOperand(s) + " " + s.localDirPath
    else ""
  }

  function ExcludeClause(pattern: string): string {
    "--exclude '" + pattern + "'"
  }

  /** `excludePatterns.map(p => --exclude 'p').join(' ')`. */
  function ExcludeOptions(patterns: seq<string>): (r: string)
    ensures r == "" <==> patterns == []
  {
    Join(seq(|patterns|, i requires 0 <= i < |patterns| => ExcludeClause(patterns[i])), " ")
  }

  const DryRunFlag: string := " --dry-run"

  function LogFileClause(path: string): string {
    " --log-file='" + path + "'"
  }

  /** The three `+=` steps after the operands, in the order they run. */
  function DryRunPart(dryRun: bool): string {
    if dryRun then DryRunFlag else ""
  }

  function LogFilePart(path: string): string {
    if path != "" then LogFileClause(path) else ""
  }

  function ExcludePart(patterns: seq<string>): string {
    " " + ExcludeOptions(patterns)
  }

  /** The shell command string `runRsyncCommand` passes to `exec`. */
  function RsyncCommand(s: Settings): string {
    BaseCommand(s) + DryRunPart(s.dryRun) + LogFilePart(s.logFilePath) + ExcludePart(s.excludePatterns)
  }

  // ---------------------------------------------------------------------
  // Properties of the command string

  lemma PasswordClauseDiffers(port1: int, port2: int, key: string, password: string)
    ensures PasswordClause(port1, password) != KeyClause(port2, key)
    ensures PasswordClause(port1, password) != PortClause(port2)
  {
    assert PasswordClause(port1, password)[7] == 'p';
    assert KeyClause(port2, key)[7] == ' ';
    assert PortClause(port2)[7] == ' ';
  }

  lemma KeyClauseDiffers(port: int, key: string)
    ensures KeyClause(port, key) != PortClause(port)
  {
    assert |KeyClause(port, key)| > |PortClause(port)|;
  }

  /** Exactly one ssh clause is produced, and it is the key clause exactly
      when a key path is set, the sshpass clause exactly when no key path is
      set but username and password both are, and the port-only clause
      otherwise: a higher-precedence setting silences every lower one. */
  lemma {:induction false} SshClausePrecedence(s: Settings)
    ensures |SshOptions(s)| == 1
    ensures Join(SshOptions(s), " ") == SshOptions(s)[0]
    ensures SshOptions(s)[0] == KeyClause(s.sshPort, s.privateKeyPath)
            <==> s.privateKeyPath != ""
    ensures SshOptions(s)[0] == PasswordClause(s.sshPort, s.sshPassword)
            <==> s.privateKeyPath == "" && s.sshUsername != "" && s.sshPassword != ""
    ensures SshOptions(s)[0] == PortClause(s.sshPort)
            <==> s.privateKeyPath == "" && (s.sshUsername == "" || s.sshPassword == "")
  {
    PasswordClauseDiffers(s.sshPort, s.sshPort, s.privateKeyPath, s.sshPassword);
    KeyClauseDiffers(s.sshPort, s.privateKeyPath);
  }

  /** Push and pull build the same head and the same appended parts and
      differ only in the order of the local path and the remote operand. */
  lemma PushPullSymmetry(s: Settings)
    ensures RsyncCommand(s.(syncDirection := "push"))
            == CommandHead(s) + s.localDirPath + " " + RemoteOperand(s)
               + DryRunPart(s.dryRun) + LogFilePart(s.logFilePath) + ExcludePart(s.excludePatterns)
    ensures RsyncCommand(s.(syncDirection := "pull"))
            == CommandHead(s) + RemoteOperand(s) + " " + s.localDirPath
               + DryRunPart(s.dryRun) + LogFilePart(s.logFilePath) + ExcludePart(s.excludePatterns)
  {
    var push, pull := s.(syncDirection := "push"), s.(syncDirection := "pull");
    assert SshOptions(push) == SshOptions(s) && SshOptions(pull) == SshOptions(s);
  }

  /** A direction other than 'push' or 'pull' leaves only the appended parts. */
  lemma UnknownDirection(s: Settings)
    requires s.syncDirection != "push" && s.syncDirection != "pull"
    ensures RsyncCommand(s) == DryRunPart(s.dryRun) + LogFilePart(s.logFilePath) + ExcludePart(s.excludePatterns)
  {
    var d, l, e := DryRunPart(s.dryRun), LogFilePart(s.logFilePath), ExcludePart(s.excludePatterns);
    assert "" + d == d;
  }

  lemma InsertBetween(a: string, x: string, b: string, c: string)
    ensures |a| <= |a + b + c|
    ensures a + x + b + c == (a + b + c)[..|a|] + x + (a + b + c)[|a|..]
  {
    assert (a + b + c)[..|a|] == a;
    assert (a + b + c)[|a|..] == b + c;
    assert a + x + b + c == a + x + (b + c);
  }

  /** The base command does not depend on the appended options. */
  lemma BaseIgnoresOptions(s: Settings, dryRun: bool, logFilePath: string)
    ensures BaseCommand(s.(dryRun := dryRun, logFilePath := logFilePath)) == BaseCommand(s)
  {
    var t := s.(dryRun := dryRun, logFilePath := logFilePath);
    assert SshOptions(t) == SshOptions(s);
  }

  /** Turning `dryRun` on inserts exactly " --dry-run" right after the
      operands and changes nothing else. */
  lemma DryRunInsertsFlag(s: Settings)
    ensures var off := RsyncCommand(s.(dryRun := false));
            var k := |BaseCommand(s)|;
            k <= |off| && RsyncCommand(s.(dryRun := true)) == off[..k] + DryRunFlag + off[k..]
  {
    var base := BaseCommand(s);
    var log, ex := LogFilePart(s.logFilePath), ExcludePart(s.excludePatterns);
    BaseIgnoresOptions(s, true, s.logFilePath);
    BaseIgnoresOptions(s, false, s.logFilePath);
    assert s.(dryRun := true) == s.(dryRun := true, logFilePath := s.logFilePath);
    assert s.(dryRun := false) == s.(dryRun := false, logFilePath := s.logFilePath);
    assert RsyncCommand(s.(dryRun := false)) == base + log + ex by {
      assert base + "" == base;
    }
    InsertBetween(base, DryRunFlag, log, ex);
  }

  /** A non-empty log-file path inserts exactly " --log-file='P'" after the
      operands and the dry-run flag, and changes nothing else. */
  lemma LogFileInsertsClause(s: Settings)
    requires s.logFilePath != ""
    ensures var without := RsyncCommand(s.(logFilePath := ""));
            var k := |BaseCommand(s)| + |DryRunPart(s.dryRun)|;
            k <= |without|
            && RsyncCommand(s) == without[..k] + LogFileClause(s.logFilePath) + without[k..]
  {
    var head := BaseCommand(s) + DryRunPart(s.dryRun);
    var ex := ExcludePart(s.excludePatterns);
    BaseIgnoresOptions(s, s.dryRun, "");
    assert s.(logFilePath := "") == s.(dryRun := s.dryRun, logFilePath := "");
    assert RsyncCommand(s.(logFilePath := "")) == head + ex by {
      assert head + "" == head;
    }
    InsertBetween(head, LogFileClause(s.logFilePath), ex, "");
    assert head + ex + "" == head + ex;
    assert head + LogFileClause(s.logFilePath) + ex + "" == head + LogFileClause(s.logFilePath) + ex;
  }

  /** The command always ends with a space followed by the exclude clauses;
      with no patterns its last character is that space. */
  lemma EndsWithExcludes(s: Settings)
    ensures var c := RsyncCommand(s);
            var e := " " + ExcludeOptions(s.excludePatterns);
            |e| <= |c| && c[|c| - |e|..] == e
    ensures s.excludePatterns == [] ==> RsyncCommand(s)[|RsyncCommand(s)| - 1] == ' '
  {
    var c := RsyncCommand(s);
    var e := ExcludePart(s.excludePatterns);
    var front := BaseCommand(s) + DryRunPart(s.dryRun) + LogFilePart(s.logFilePath);
    assert c == front + e;
    assert c[|c| - |e|..] == e;
    if s.excludePatterns == [] {
      assert e == " " by {
        assert ExcludeOptions([]) == "";
      }
    }
  }

  /** One `--exclude` clause per pattern, in input order: the clauses of a
      list with one more pattern are the earlier clauses, a space, and the
      new pattern's clause; no pattern gives the empty string. */
  lemma {:induction false} ExcludeOptionsAppend(patterns: seq<string>, p: string)
    ensures ExcludeOptions([]) == ""
    ensures ExcludeOptions(patterns + [p])
            == ExcludeOptions(patterns) + (if patterns == [] then "" else " ") + ExcludeClause(p)
  {
    var clauses := seq(|patterns|, i requires 0 <= i < |patterns| => ExcludeClause(patterns[i]));
    var ps := patterns + [p];
    var all := seq(|ps|, i requires 0 <= i < |ps| => ExcludeClause(ps[i]));
    assert all == clauses + [ExcludeClause(p)];
    JoinAppend(clauses, ExcludeClause(p), " ");
  }

  lemma {:induction false} JoinAppend(parts: seq<string>, x: string, sep: string)
    ensures Join(parts + [x], sep) == Join(parts, sep) + (if parts == [] then "" else sep) + x
  {
    if |parts| == 1 {
      assert (parts + [x])[1..] == [x];
    } else if |parts| > 1 {
      assert (parts + [x])[1..] == parts[1..] + [x];
      JoinAppend(parts[1..], x, sep);
    }
  }

  /** Two patterns give two clauses, in input order, separated by one space. */
  lemma ExcludeOptionsExample()
    ensures ExcludeOptions(["*.log", "tmp/*"]) == "--exclude '*.log' --exclude 'tmp/*'"
  {
    ExcludeOptionsAppend(["*.log"], "tmp/*");
    ExcludeOptionsAppend([], "*.log");
    assert ["*.log"] + ["tmp/*"] == ["*.log", "tmp/*"];
  }

  /** The command built from the default settings: an empty binary path and
      the port-only clause for port 22, with empty operands around '@' and ':'. */
  lemma DefaultCommand()
    ensures RsyncCommand(DefaultSettings)
            == " -avz --progress --stats --no-links --delete -e \"ssh -p 22\"  @: "
  {
    var d := DefaultSettings;
    assert IntToString(22) == "22" by {
      assert NatToString(2) == "2";
      assert NatToString(22) == NatToString(2) + [DigitChar(2)];
    }
    var clause := "-e \"ssh -p 22\"";
    assert d.privateKeyPath == "" && d.sshUsername == "";
    assert PortClause(22) == "-e \"ssh -p " + "22" + "\"";
    assert PortClause(22) == clause;
    assert SshOptions(d) == [clause];
    assert Join(SshOptions(d), " ") == clause;
    assert CommandHead(d) == "" + RsyncFlags + clause + " ";
    assert RemoteOperand(d) == "@:";
    assert BaseCommand(d) == CommandHead(d) + "" + " " + "@:";
    assert ExcludePart(d.excludePatterns) == " " by {
      assert ExcludeOptions([]) == "";
    }
    assert RsyncCommand(d) == BaseCommand(d) + "" + "" + " ";
  }
}
