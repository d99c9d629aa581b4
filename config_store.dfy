/**
 * The user's configuration store (`Config`), with the extension entries
 * (`ExtensionManager`) and the experiment flags (`ExperimentManager`) it
 * holds, as explicit state passed to the operations that change it.
 */
module ConfigStore {
  import opened Extensions

  /** A stored value: a JSON string or a JSON number. */
  datatype ConfigValue = Str(text: string) | Num(number: real)

  class Config {
    var values: map<string, ConfigValue>
    var extensions: map<string, ExtensionEntry>
    var experiments: map<string, bool>

    /** Extension entries are keyed by their own name. */
    ghost predicate Valid()
      reads this
    {
      forall k | k in extensions :: extensions[k].config.name == k
    }

    constructor ()
      ensures Valid()
      ensures values == map[] && extensions == map[] && experiments == map[]
    {
      values, extensions, experiments := map[], map[], map[];
    }

    /** `Config::set` */
    method Set(key: string, value: ConfigValue)
      modifies this
      ensures values == old(values)[key := value]
      ensures extensions == old(extensions) && experiments == old(experiments)
    {
      values := values[key := value];
    }

    /** `Config::clear`: everything the store holds is dropped. */
    method Clear()
      modifies this
      ensures Valid()
      ensures values == map[] && extensions == map[] && experiments == map[]
    {
      values, extensions, experiments := map[], map[], map[];
    }

    /** `ExtensionManager::set`: insert or replace the entry under its name. */
    method SetExtension(entry: ExtensionEntry)
      requires Valid()
      modifies this
      ensures Valid()
      ensures extensions == old(extensions)[entry.config.name := entry]
      ensures values == old(values) && experiments == old(experiments)
    {
      extensions := extensions[entry.config.name := entry];
    }

    /** `ExtensionManager::set_enabled`: flip the flag of an existing entry. */
    method SetExtensionEnabled(name: string, enabled: bool)
      requires Valid()
      modifies this
      ensures Valid()
      ensures extensions == if name in old(extensions)
        then old(extensions)[name := old(extensions)[name].(enabled := enabled)]
        else old(extensions)
      ensures values == old(values) && experiments == old(experiments)
    {
      if name in extensions {
        extensions := extensions[name := extensions[name].(enabled := enabled)];
      }
    }

    /** `ExtensionManager::remove` */
    method RemoveExtension(name: string)
      requires Valid()
      modifies this
      ensures Valid()
      ensures extensions == old(extensions) - {name}
      ensures values == old(values) && experiments == old(experiments)
    {
      extensions := extensions - {name};
    }

    /** `ExperimentManager::set_enabled` */
    method SetExperimentEnabled(name: string, enabled: bool)
      modifies this
      ensures experiments == old(experiments)[name := enabled]
      ensures values == old(values) && extensions == old(extensions)
    {
      experiments := experiments[name := enabled];
    }
  }
}
