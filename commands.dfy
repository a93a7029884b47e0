/**
 * The default command table of src/commands/mod.rs: four commands, each
 * registered behind the gate of its word under a fresh handle.
 */
module Commands {
  import opened ByteStrings
  import opened Hooks

  /** `CMD_NAMES`: the words of the table, in its order. */
  const CmdNames: seq<Bytes> := ["about", "commands", "echo", "ping"]

  /** The handler each word of the table builds; `cmd!` builds one that ignores its handle. */
  function Built(word: Bytes, m: M): Command {
    if word == "about" then About
    else if word == "commands" then ListCommands(CmdNames)
    else if word == "echo" then Echo
    else Ping
  }

  /** The updates `default_cmds` returns when the counter stands at `n`. */
  function DefaultBatch(n: nat): seq<Hook> {
    [ AddCommand(M(n), "about", About),
      AddCommand(M(n + 1), "commands", ListCommands(CmdNames)),
      AddCommand(M(n + 2), "echo", Echo),
      AddCommand(M(n + 3), "ping", Ping) ]
  }

  /** `default_cmds`: one `Hook::register` per entry of the table, in order. */
  method DefaultCmds(u: Unique) returns (hs: seq<Hook>)
    requires u.Valid()
    modifies u
    ensures u.Valid() && u.next == old(u.next) + 4
    ensures hs == DefaultBatch(old(u.next))
  {
    var about := Register(u, "about", m => Built("about", m));
    var commands := Register(u, "commands", m => Built("commands", m));
    var echo := Register(u, "echo", m => Built("echo", m));
    var ping := Register(u, "ping", m => Built("ping", m));
    hs := [about, commands, echo, ping];
  }

  /**
   * The table's updates are four gated additions, one per name of
   * `CMD_NAMES` in the same order, each under its own handle drawn from the
   * counter, and each building the handler of its word.
   */
  lemma DefaultBatchShape(n: nat)
    ensures |DefaultBatch(n)| == |CmdNames| == 4
    ensures forall i | 0 <= i < 4 ::
              DefaultBatch(n)[i] == AddCommand(M(n + i), CmdNames[i], Built(CmdNames[i], M(n + i)))
  {
    forall i | 0 <= i < 4
      ensures DefaultBatch(n)[i] == AddCommand(M(n + i), CmdNames[i], Built(CmdNames[i], M(n + i)))
    {
      if i == 0 {
      } else if i == 1 {
        assert CmdNames[1] != "about";
      } else if i == 2 {
        assert CmdNames[2] != "about" && CmdNames[2] != "commands";
      } else {
        assert CmdNames[3] != "about" && CmdNames[3] != "commands" && CmdNames[3] != "echo";
      }
    }
  }

  /**
   * Applied to a registry whose handles were all drawn before `n`, the table
   * adds four new gated commands, one per name, and disturbs nothing else.
   */
  lemma DefaultInstalled(r: Registry, n: nat)
    requires Below(r, n)
    ensures var s := Applied(r, DefaultBatch(n));
      && (forall i | 0 <= i < 4 :: M(n + i) in s.msg && M(n + i) !in r.msg && s.msg[M(n + i)].Gated? && s.msg[M(n + i)].word == CmdNames[i])
      && (forall m | m in r.msg :: m in s.msg && s.msg[m] == r.msg[m])
      && (forall m | m in s.msg && m !in r.msg :: n <= m.un < n + 4)
      && s.join == r.join
      && Below(s, n + 4)
  {
    var b := DefaultBatch(n);
    var s1 := Step(r, b[0]);
    var s2 := Step(s1, b[1]);
    var s3 := Step(s2, b[2]);
    var s4 := Step(s3, b[3]);
    assert Applied(r, b) == s4 by {
      assert Applied(s4, b[1..][1..][1..][1..]) == s4 by {
        assert b[1..][1..][1..][1..] == [];
      }
      assert Applied(s3, b[1..][1..][1..]) == s4;
      assert Applied(s2, b[1..][1..]) == s4;
      assert Applied(s1, b[1..]) == s4;
    }
  }
}
