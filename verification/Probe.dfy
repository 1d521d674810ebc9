/**
 The readiness probe (rust/crd/src/security.rs, `kcat_prober_container_commands`): what its
 list of words names, and what is run when the list is executed without a further shell.
 */
module Probe {
  import opened Common
  import opened Text
  import opened Security
  import opened Listeners
  import opened BrokerConfig
  import opened Pod

  // ---- What the arguments name ----

  // A protocol is named exactly when the client listener has TLS, and it is the same one.
  lemma NamedProtocol(s: KafkaTlsSecurity, podFqdn: string, text: string)
    ensures Property(PROTOCOL, text) in KcatArgs(s, podFqdn) <==>
            IsTls(ClientProtocol(s)) && text == ProtocolText(ClientProtocol(s))
  {
    ProtocolArguments(podFqdn, text);
    assert Property(PROTOCOL, text) !in KcatLaunch(s, podFqdn);
    assert Property(PROTOCOL, text) in KcatArgs(s, podFqdn) <==> Property(PROTOCOL, text) in KcatOptions(s, podFqdn);
  }

  lemma ProtocolArguments(podFqdn: string, text: string)
    ensures Property(PROTOCOL, text) in KcatClientAuthSsl() <==> text == ProtocolText(Ssl)
    ensures Property(PROTOCOL, text) in KcatClientSsl() <==> text == ProtocolText(Ssl)
    ensures Property(PROTOCOL, text) in KcatClientSaslSsl(podFqdn) <==> text == ProtocolText(SaslSsl)
  {
    OtherPropertyKeys();
    assert KcatClientAuthSsl()[1] == Property(PROTOCOL, ProtocolText(Ssl));
    assert KcatClientSsl()[1] == Property(PROTOCOL, ProtocolText(Ssl));
    assert KcatClientSaslSsl(podFqdn)[1] == Property(PROTOCOL, ProtocolText(SaslSsl));
  }

  lemma OtherPropertyKeys()
    ensures "sasl.mechanism" != PROTOCOL && "sasl.kerberos.service.name" != PROTOCOL && "sasl.kerberos.principal" != PROTOCOL
  {
    assert PROTOCOL[1] == 'e' && "sasl.mechanism"[1] == 'a';
    assert "sasl.kerberos.service.name"[1] == 'a' && "sasl.kerberos.principal"[1] == 'a';
  }

  // The broker that is named.
  lemma NamedBroker(s: KafkaTlsSecurity, podFqdn: string, a: Arg)
    requires a.Broker?
    ensures a in KcatArgs(s, podFqdn) <==>
            a.port == s.ClientPort()
            && a.host == if !s.HasTlsAuthentication() && s.HasKerberosEnabled() then podFqdn else "localhost"
  {
    var launch := KcatLaunch(s, podFqdn);
    assert launch[|launch| - 1].Broker?;
    assert forall b | b in KcatOptions(s, podFqdn) :: !b.Broker?;
    assert a in KcatArgs(s, podFqdn) <==> a in launch;
  }

  // Its port is the one the client listener binds: for validated classes, exactly when
  // `validate_authentication_methods` accepts.
  lemma NamedPortAgreesIff(s: KafkaTlsSecurity, podFqdn: string, a: Arg)
    requires Validation(s.classes).Ok?
    requires a.Broker? && a in KcatArgs(s, podFqdn)
    ensures a.port == ClientBindPort(s) <==> s.ValidAuthenticationMethods()
  {
    AcceptedIsExclusive(s);
    NamedBroker(s, podFqdn, a);
  }

  // ---- What is executed ----

  const SHELL := "/bin/bash"
  const KCAT := "/stackable/kcat"

  // A list of words runs its first word as a program. A shell given `-c` runs the one word
  // after it; the words after that only become parameters of the script.
  datatype Execution = Program(words: seq<Arg>) | Script(script: Arg, parameters: seq<Arg>)

  function PositionOf(words: seq<Arg>, w: Arg): (i: nat)
    ensures i <= |words|
    ensures i < |words| ==> words[i] == w
    ensures forall k | 0 <= k < i :: words[k] != w
  {
    if words == [] || words[0] == w then 0 else PositionOf(words[1..], w) + 1
  }

  function Executed(words: seq<Arg>): Execution {
    var i := PositionOf(words, Word("-c"));
    if words != [] && words[0] == Word(SHELL) && i + 1 < |words| then Script(words[i + 1], words[i + 2..])
    else Program(words)
  }

  ghost predicate MentionedAt(text: string, name: string, i: nat) {
    i + |name| <= |text| && text[i..i + |name|] == name
  }

  ghost predicate Mentions(text: string, name: string) {
    exists i :: MentionedAt(text, name, i)
  }

  // kcat runs as the program, or where a script mentions it.
  ghost predicate RunsKcat(words: seq<Arg>) {
    match Executed(words)
    case Program(program) => program != [] && program[0] == Word(KCAT)
    case Script(script, _) => Mentions(ArgText(script), "kcat")
  }

  // The words kcat is given.
  function KcatWords(words: seq<Arg>): seq<Arg> {
    match Executed(words)
    case Program(program) => if program != [] && program[0] == Word(KCAT) then program[1..] else []
    case Script(_, _) => []
  }

  lemma KerberosPath()
    ensures PathText(KRB5_CONF) == "/stackable/kerberos/krb5.conf"
  {
  }

  // In the path of the Kerberos configuration no `k` is last, or followed by a `c`.
  lemma KFollowed(path: string, i: nat)
    requires path == "/stackable/kerberos/krb5.conf" && i < |path| && path[i] == 'k'
    ensures i + 1 < |path| && path[i + 1] != 'c'
  {
  }

  lemma NoKInScript()
    ensures 'k' !in EXPORT_REALM && 'k' !in GREP_REALM && 'k' !in ");"
  {
  }

  lemma NotMentionedAt(before: string, path: string, after: string, i: nat)
    requires 'k' !in before && 'k' !in after && path == "/stackable/kerberos/krb5.conf" && after == ");"
    ensures !MentionedAt(before + path + after, "kcat", i)
  {
    var text := before + path + after;
    assert forall k | 0 <= k < |before| :: text[k] == before[k];
    assert forall k | |before| + |path| <= k < |text| :: text[k] == after[k - |before| - |path|];
    if MentionedAt(text, "kcat", i) {
      var j := i - |before|;
      assert text[i] == text[i..i + 4][0] && text[i + 1] == text[i..i + 4][1];
      assert 0 <= j < |path| && path[j] == 'k';
      assert text[i + 1] == if j + 1 < |path| then path[j + 1] else ')';
      KFollowed(path, j);
    }
  }

  // The script under Kerberos only exports the realm.
  lemma ScriptWithoutKcat()
    ensures !Mentions(ArgText(Reads(KRB5_CONF)), "kcat")
  {
    KerberosPath();
    NoKInScript();
    var before, path := EXPORT_REALM + GREP_REALM, PathText(KRB5_CONF);
    assert 'k' !in before;
    assert ArgText(Reads(KRB5_CONF)) == before + path + ");";
    forall i
      ensures !MentionedAt(before + path + ");", "kcat", i)
    {
      NotMentionedAt(before, path, ");", i);
    }
  }

  lemma ProbeExecutes(s: KafkaTlsSecurity, podFqdn: string)
    requires Validation(s.classes).Ok?
    ensures var words := KcatArgs(s, podFqdn);
            Executed(words) == if s.HasKerberosEnabled() then Script(Reads(KRB5_CONF), words[6..]) else Program(words)
  {
    AcceptedIsExclusive(s);
    var words := KcatArgs(s, podFqdn);
    if s.HasKerberosEnabled() {
      ShellPosition(words);
    }
  }

  lemma ShellPosition(words: seq<Arg>)
    requires |words| > 5
    requires words[..5] == [Word(SHELL), Word("-x"), Word("-euo"), Word("pipefail"), Word("-c")]
    ensures PositionOf(words, Word("-c")) == 4
  {
    var i := PositionOf(words, Word("-c"));
    assert words[0] == words[..5][0] && words[1] == words[..5][1] && words[2] == words[..5][2];
    assert words[3] == words[..5][3] && words[4] == words[..5][4];
    assert "-c"[1] == 'c' && "-x"[1] == 'x' && SHELL[0] == '/' && "pipefail"[0] == 'p';
  }

  // For validated classes kcat runs exactly when Kerberos is off: under Kerberos it is only a
  // parameter of a script that does not use it.
  lemma ProbeRunsKcatIff(s: KafkaTlsSecurity, podFqdn: string)
    requires Validation(s.classes).Ok?
    ensures RunsKcat(KcatArgs(s, podFqdn)) <==> !s.HasKerberosEnabled()
  {
    ProbeExecutes(s, podFqdn);
    ScriptWithoutKcat();
  }

  // A configuration that is accepted, with such a probe.
  lemma KerberosProbeRunsNoKcat(name: string, secretClass: string, internal: string, server: string, podFqdn: string)
    ensures var s := KafkaTlsSecurity([AuthenticationClass(name, Kerberos(secretClass))], internal, Some(server));
            s.Accepted() && !RunsKcat(KcatArgs(s, podFqdn)) && KcatWords(KcatArgs(s, podFqdn)) == []
  {
    var s := KafkaTlsSecurity([AuthenticationClass(name, Kerberos(secretClass))], internal, Some(server));
    assert s.HasKerberosEnabled();
    ProbeExecutes(s, podFqdn);
    ProbeRunsKcatIff(s, podFqdn);
  }

  lemma KcatWordsExact(s: KafkaTlsSecurity, podFqdn: string)
    requires Validation(s.classes).Ok?
    ensures KcatWords(KcatArgs(s, podFqdn)) == if s.HasKerberosEnabled() then [] else KcatArgs(s, podFqdn)[1..]
  {
    ProbeExecutes(s, podFqdn);
  }

  lemma LaterWord(s: KafkaTlsSecurity, podFqdn: string, a: Arg)
    requires Validation(s.classes).Ok? && !a.Word?
    ensures a in KcatWords(KcatArgs(s, podFqdn)) <==> !s.HasKerberosEnabled() && a in KcatArgs(s, podFqdn)
  {
    KcatWordsExact(s, podFqdn);
    var words := KcatArgs(s, podFqdn);
    if !s.HasKerberosEnabled() {
      assert words == [words[0]] + words[1..];
      assert words[0] == Word(KCAT);
    }
  }

  // kcat, where it runs, connects to the client port on localhost, ...
  lemma ProbeBroker(s: KafkaTlsSecurity, podFqdn: string, a: Arg)
    requires Validation(s.classes).Ok? && a.Broker?
    ensures a in KcatWords(KcatArgs(s, podFqdn)) <==> !s.HasKerberosEnabled() && a == Broker("localhost", s.ClientPort())
  {
    LaterWord(s, podFqdn, a);
    NamedBroker(s, podFqdn, a);
  }

  // ... speaks the protocol of the client listener, ...
  lemma ProbeProtocol(s: KafkaTlsSecurity, podFqdn: string, text: string)
    requires Validation(s.classes).Ok?
    ensures Property(PROTOCOL, text) in KcatWords(KcatArgs(s, podFqdn)) <==>
            !s.HasKerberosEnabled() && IsTls(ClientProtocol(s)) && text == ProtocolText(ClientProtocol(s))
  {
    LaterWord(s, podFqdn, Property(PROTOCOL, text));
    NamedProtocol(s, podFqdn, text);
  }

  // ... and so reaches the port that the client listener binds; it connects anywhere exactly
  // when Kerberos is off.
  lemma ProbeConnectsIff(s: KafkaTlsSecurity, podFqdn: string)
    requires Validation(s.classes).Ok?
    ensures (exists a :: a in KcatWords(KcatArgs(s, podFqdn)) && a.Broker?) <==> !s.HasKerberosEnabled()
    ensures forall a | a in KcatWords(KcatArgs(s, podFqdn)) && a.Broker? :: a.port == ClientBindPort(s)
  {
    AcceptedIsExclusive(s);
    var words := KcatWords(KcatArgs(s, podFqdn));
    ProbeBroker(s, podFqdn, Broker("localhost", s.ClientPort()));
    forall a | a in words && a.Broker?
      ensures !s.HasKerberosEnabled() && a.port == ClientBindPort(s)
    {
      ProbeBroker(s, podFqdn, a);
    }
    if !s.HasKerberosEnabled() { assert Broker("localhost", s.ClientPort()) in words; }
  }
}
