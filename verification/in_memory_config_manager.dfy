/** `InMemoryConfigManager`: call configurations kept in a dictionary keyed by
    conversation id. The configuration type is a parameter. */
module ConfigManager {
  import opened Common

  datatype ConfigStore<C> = ConfigStore(configs: map<string, C>)

  function NewConfigStore<C>(): (s: ConfigStore<C>)
    ensures |s.configs| == 0
  {
    ConfigStore(map[])
  }

  /** `save_config`: store `config` under `id`, replacing any earlier one. */
  function SaveConfig<C>(s: ConfigStore<C>, id: string, config: C): (r: ConfigStore<C>)
    ensures id in r.configs && r.configs[id] == config
    ensures r.configs.Keys == s.configs.Keys + {id}
    ensures forall k :: k in s.configs && k != id ==> r.configs[k] == s.configs[k]
  {
    ConfigStore(s.configs[id := config])
  }

  /** `get_config`: `dict.get`, so an unknown id gives `None`. */
  function GetConfig<C>(s: ConfigStore<C>, id: string): (r: Option<C>)
    ensures r.Some? <==> id in s.configs
    ensures r.Some? ==> r.value == s.configs[id]
  {
    if id in s.configs then Some(s.configs[id]) else None
  }

  /** `delete_config`: remove `id` if present; an absent id is left alone. */
  function DeleteConfig<C>(s: ConfigStore<C>, id: string): (r: ConfigStore<C>)
    ensures r.configs.Keys == s.configs.Keys - {id}
    ensures forall k :: k in r.configs ==> r.configs[k] == s.configs[k]
    ensures id !in s.configs ==> r == s
  {
    if id in s.configs then ConfigStore(s.configs - {id}) else s
  }

  /** Reading back what was saved gives it, even over an earlier save. */
  lemma GetAfterSave<C>(s: ConfigStore<C>, id: string, c1: C, c2: C)
    ensures GetConfig(SaveConfig(s, id, c1), id) == Some(c1)
    ensures GetConfig(SaveConfig(SaveConfig(s, id, c1), id, c2), id) == Some(c2)
  {
  }

  /** A deleted id reads as `None`, and deleting again changes nothing. */
  lemma DeleteThenGet<C>(s: ConfigStore<C>, id: string)
    ensures GetConfig(DeleteConfig(s, id), id) == None
    ensures DeleteConfig(DeleteConfig(s, id), id) == DeleteConfig(s, id)
  {
  }

  /** Saving or deleting one id does not change what another id reads. */
  lemma OtherIdsUnchanged<C>(s: ConfigStore<C>, id: string, other: string, c: C)
    requires other != id
    ensures GetConfig(SaveConfig(s, id, c), other) == GetConfig(s, other)
    ensures GetConfig(DeleteConfig(s, id), other) == GetConfig(s, other)
  {
  }
}
