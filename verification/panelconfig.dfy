/** The configuration look-ups of `PanelCoordinator` in
    Workflow/scripts/panel-coordinator.py: finding a panel by name, the
    decision model a panel uses, and the command line that runs one panel
    member in a role. */
module PanelConfiguration {
  import opened Wrappers
  import opened Text

  /** One entry of the `panels` table: its members in listed order, the
      role they play, and the `decision_model` tag when one is given. */
  datatype Panel = Panel(members: seq<string>, roleType: string, decisionModel: Option<string>)

  /** The loaded supervisor configuration: the `panels` table and the
      `member_cli` overrides (each absent table reads as empty). */
  datatype Config = Config(panels: map<string, Panel>, memberCli: map<string, string>)

  datatype PanelError = PanelNotFound(name: string) | UnknownDecisionModel(tag: string)

  /** `PanelCoordinator.get_panel_config(panel_name)`: the panel's entry,
      or an error naming the panel when there is none. */
  function GetPanelConfig(config: Config, name: string): (r: Result<Panel, PanelError>)
    ensures r.Success? <==> name in config.panels
    ensures r.Success? ==> r.value == config.panels[name]
    ensures r.Failure? ==> r.error == PanelNotFound(name)
  {
    if name in config.panels then Success(config.panels[name]) else Failure(PanelNotFound(name))
  }

  /** The tag of the unanimous model; it is also the default. */
  const Unanimous := "consensus"

  /** `panel_config.get('decision_model', 'consensus')`. */
  function DecisionModelOf(p: Panel): (tag: string)
    ensures p.decisionModel.None? ==> tag == Unanimous
    ensures p.decisionModel.Some? ==> tag == p.decisionModel.value
  {
    p.decisionModel.GetOr(Unanimous)
  }

  /** The program (with its fixed options) each known member runs when
      nothing overrides it; the role is passed after it as `--role`. */
  const BuiltinPrograms: map<string, string> := map[
    "claude" := "claude",
    "gpt-5" := "gpt --model gpt-5",
    "gemini" := "gemini",
    "codex" := "codex",
    "opencode" := "opencode"]

  /** The role argument every built-in and fallback command ends with. */
  function RoleArgument(roleType: string): string
  {
    " --role " + roleType
  }

  /** The placeholder a `member_cli` override may hold for the role. */
  const RolePlaceholder := "{role}"

  /** `PanelCoordinator._get_member_cli_command(member, role_type,
      role_config)`, where `roleCli` is the role configuration's `cli`
      entry when the configuration is given and has one. Four sources are
      tried in order: the member's override with the role filled in, the
      role's command when it is meant for this member, the built-in
      table, and finally the member's name used as the program. */
  function MemberCliCommand(config: Config, member: string, roleType: string, roleCli: Option<string>): (r: string)
    ensures member in config.memberCli ==> r == Replace(config.memberCli[member], RolePlaceholder, roleType)
    ensures member !in config.memberCli && roleCli.Some? && StartsWith(roleCli.value, member + " ") ==> r == roleCli.value
  {
    if member in config.memberCli then Replace(config.memberCli[member], RolePlaceholder, roleType)
    else if roleCli.Some? && StartsWith(roleCli.value, member + " ") then roleCli.value
    else if member in BuiltinPrograms then BuiltinPrograms[member] + RoleArgument(roleType)
    else member + RoleArgument(roleType)
  }

  lemma {:induction false} StartsWithJoin(prefix: string, rest: string)
    ensures StartsWith(prefix + rest, prefix)
  {
    assert (prefix + rest)[..|prefix|] == prefix;
  }

  /** Every built-in program other than `gpt-5`'s is the member's name. */
  lemma {:induction false} BuiltinIsMember(member: string)
    requires member in BuiltinPrograms && member != "gpt-5"
    ensures BuiltinPrograms[member] == member
  {
  }

  /** Without an override the command runs the member's own program,
      except for `gpt-5`, whose built-in command runs `gpt`. */
  lemma {:induction false} CommandNamesMember(config: Config, member: string, roleType: string, roleCli: Option<string>)
    requires member !in config.memberCli && member != "gpt-5"
    ensures StartsWith(MemberCliCommand(config, member, roleType, roleCli), member + " ")
  {
    if !(roleCli.Some? && StartsWith(roleCli.value, member + " ")) {
      if member in BuiltinPrograms {
        BuiltinIsMember(member);
      }
      assert MemberCliCommand(config, member, roleType, roleCli) == member + " " + ("--role " + roleType);
      StartsWithJoin(member + " ", "--role " + roleType);
    }
  }

  /** When neither an override nor a role command for this member applies,
      the command is the member's built-in program, or the member's name
      when it has none, followed by `--role <role>`. */
  lemma {:induction false} CommandPassesRole(config: Config, member: string, roleType: string, roleCli: Option<string>)
    requires member !in config.memberCli
    requires !(roleCli.Some? && StartsWith(roleCli.value, member + " "))
    ensures member in BuiltinPrograms ==>
      MemberCliCommand(config, member, roleType, roleCli) == BuiltinPrograms[member] + " --role " + roleType
    ensures member !in BuiltinPrograms ==>
      MemberCliCommand(config, member, roleType, roleCli) == member + " --role " + roleType
  {
    var program := if member in BuiltinPrograms then BuiltinPrograms[member] else member;
    assert MemberCliCommand(config, member, roleType, roleCli) == program + (" --role " + roleType);
  }

  /** The built-in table, command by command: with no override and no
      role command for the member, `claude`, `gemini`, `codex` and
      `opencode` run their own program and `gpt-5` runs `gpt --model gpt-5`,
      each followed by `--role <role>`. */
  lemma {:induction false} DefaultCommands(config: Config, member: string, roleType: string, roleCli: Option<string>)
    requires member !in config.memberCli
    requires !(roleCli.Some? && StartsWith(roleCli.value, member + " "))
    ensures member == "claude" ==> MemberCliCommand(config, member, roleType, roleCli) == "claude --role " + roleType
    ensures member == "gpt-5" ==> MemberCliCommand(config, member, roleType, roleCli) == "gpt --model gpt-5 --role " + roleType
    ensures member == "gemini" ==> MemberCliCommand(config, member, roleType, roleCli) == "gemini --role " + roleType
    ensures member == "codex" ==> MemberCliCommand(config, member, roleType, roleCli) == "codex --role " + roleType
    ensures member == "opencode" ==> MemberCliCommand(config, member, roleType, roleCli) == "opencode --role " + roleType
  {
    if member in BuiltinPrograms {
      CommandPassesRole(config, member, roleType, roleCli);
      var program := BuiltinPrograms[member];
      assert program + " --role " + roleType == (program + " --role ") + roleType;
    }
  }

  /** Any other member's name is run as the program:
      `<member> --role <role>`. */
  lemma {:induction false} FallbackCommand(config: Config, member: string, roleType: string, roleCli: Option<string>)
    requires member !in config.memberCli
    requires !(roleCli.Some? && StartsWith(roleCli.value, member + " "))
    requires member !in {"claude", "gpt-5", "gemini", "codex", "opencode"}
    ensures MemberCliCommand(config, member, roleType, roleCli) == member + " --role " + roleType
  {
    assert member !in BuiltinPrograms;
  }

  /** An override written as placeholder-free pieces around `{role}`
      gets the role in every placeholder and is otherwise kept as is. */
  lemma {:induction false} OverrideFillsRole(config: Config, member: string, roleType: string, roleCli: Option<string>, pieces: seq<string>)
    requires |pieces| >= 1 && forall i :: 0 <= i < |pieces| ==> '{' !in pieces[i]
    requires member in config.memberCli && config.memberCli[member] == Join(pieces, RolePlaceholder)
    ensures MemberCliCommand(config, member, roleType, roleCli) == Join(pieces, roleType)
  {
    ReplaceJoin(pieces, RolePlaceholder, roleType);
  }
}
