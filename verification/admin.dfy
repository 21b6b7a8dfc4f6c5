/** The admin dialog (components/AdminSettings.tsx): a local copy of the
    per-type configuration table in which the active tab's prompt can be
    edited, then saved, discarded, or reset to the defaults after a
    confirmation. The dialog only edits prompts; the column lists (and so
    the schemas and exports) are never touched. */
module Admin {
  import opened Basics
  import opened Types
  import opened Registry

  /** `Record<DocumentType, DocConfig>`: one configuration per type, so the
      table is total by construction. */
  datatype Configs = Configs(bom: DocConfig, invoice: DocConfig, po: DocConfig, other: DocConfig)
  {
    function Get(t: DocumentType): DocConfig {
      match t
      case BOM => bom
      case INVOICE => invoice
      case PO => po
      case OTHER => other
    }

    /** `{...configs, [t]: c}`: the entry of `t` is replaced, the others
        stay. */
    function Set(t: DocumentType, c: DocConfig): (r: Configs)
      ensures r.Get(t) == c
      ensures forall u :: u != t ==> r.Get(u) == Get(u)
    {
      match t
      case BOM => this.(bom := c)
      case INVOICE => this.(invoice := c)
      case PO => this.(po := c)
      case OTHER => this.(other := c)
    }
  }

  /** The built-in table. */
  function DefaultConfigs(): (c: Configs)
    ensures forall t :: c.Get(t) == DefaultConfig(t) && c.Get(t).docType == t
  {
    Configs(DefaultConfig(BOM), DefaultConfig(INVOICE), DefaultConfig(PO), DefaultConfig(OTHER))
  }

  /** The dialog's state: the selected tab and the edited copy. */
  datatype AdminState = AdminState(activeTab: DocumentType, local: Configs)

  /** Opening the dialog starts on the BOM tab with a copy of the table it
      was given. */
  function Open(configs: Configs): AdminState {
    AdminState(BOM, configs)
  }

  function SelectTab(s: AdminState, t: DocumentType): AdminState {
    s.(activeTab := t)
  }

  /** `handlePromptChange`: the active tab's prompt becomes the new text.
      Its type, title and columns stay, every other type's configuration
      stays, and the tab stays. */
  function PromptChange(s: AdminState, text: string): (r: AdminState)
    ensures r.activeTab == s.activeTab
    ensures r.local.Get(s.activeTab).prompt == text
    ensures r.local.Get(s.activeTab) == s.local.Get(s.activeTab).(prompt := text)
    ensures forall t :: t != s.activeTab ==> r.local.Get(t) == s.local.Get(t)
    ensures forall t ::
      r.local.Get(t).columns == s.local.Get(t).columns
      && r.local.Get(t).docType == s.local.Get(t).docType && r.local.Get(t).title == s.local.Get(t).title
  {
    s.(local := s.local.Set(s.activeTab, s.local.Get(s.activeTab).(prompt := text)))
  }

  /** Two edits in a row leave what the last one alone would: edits do not
      accumulate, and repeating an edit changes nothing more. */
  lemma LastPromptWins(s: AdminState, a: string, b: string)
    ensures PromptChange(PromptChange(s, a), b) == PromptChange(s, b)
    ensures PromptChange(PromptChange(s, a), a) == PromptChange(s, a)
  {
  }

  /** What the user can do in the dialog. */
  datatype AdminAction = Tab(t: DocumentType) | Type(text: string)

  function Apply(s: AdminState, a: AdminAction): AdminState {
    match a
    case Tab(t) => SelectTab(s, t)
    case Type(text) => PromptChange(s, text)
  }

  function Run(s: AdminState, actions: seq<AdminAction>): AdminState
    decreases |actions|
  {
    if |actions| == 0 then s else Run(Apply(s, actions[0]), actions[1..])
  }

  /** Whatever the user does in the dialog, every type keeps its columns,
      its type tag and its title: only prompts change. */
  lemma {:induction false} RunKeepsColumns(s: AdminState, actions: seq<AdminAction>)
    ensures forall t :: Run(s, actions).local.Get(t).columns == s.local.Get(t).columns
    ensures forall t :: Run(s, actions).local.Get(t).docType == s.local.Get(t).docType
    ensures forall t :: Run(s, actions).local.Get(t).title == s.local.Get(t).title
    decreases |actions|
  {
    if |actions| > 0 {
      RunKeepsColumns(Apply(s, actions[0]), actions[1..]);
    }
  }

  /** What the dialog asks of its host. */
  datatype Effect = OnSave(configs: Configs) | OnClose | OnReset

  /** `handleSave`: hand the edited table to the host, then close. */
  function Save(s: AdminState): seq<Effect> {
    [OnSave(s.local), OnClose]
  }

  /** The reset button: the host is asked to reset only once the user has
      confirmed; the local copy is left as it is. */
  function Reset(s: AdminState, confirmed: bool): (effects: seq<Effect>)
    ensures OnReset in effects <==> confirmed
    ensures |effects| <= 1
    ensures forall e :: e in effects ==> e == OnReset
  {
    if confirmed then [OnReset] else []
  }

  /** Saving hands over the edits: after a prompt edit, the saved table
      carries the new prompt for the active tab and everything else as it
      was, and the dialog closes after handing it over. */
  lemma SaveHandsOverEdit(s: AdminState, text: string)
    ensures var effects := Save(PromptChange(s, text));
      |effects| == 2 && effects[0].OnSave? && effects[1] == OnClose
      && effects[0].configs.Get(s.activeTab) == s.local.Get(s.activeTab).(prompt := text)
      && forall t :: t != s.activeTab ==> effects[0].configs.Get(t) == s.local.Get(t)
  {
  }

  /** Whatever is edited after opening the built-in table, the saved
      table still gives each type its own tag and its built-in columns, so
      it keeps agreeing with the output schemas; saving without edits hands
      back the table unchanged. */
  lemma SavedColumnsUnchanged(actions: seq<AdminAction>)
    ensures var saved := Save(Run(Open(DefaultConfigs()), actions))[0].configs;
      forall t :: saved.Get(t).columns == DefaultConfig(t).columns && saved.Get(t).docType == t
    ensures Save(Open(DefaultConfigs()))[0] == OnSave(DefaultConfigs())
  {
    RunKeepsColumns(Open(DefaultConfigs()), actions);
  }
}
