/**
 * Prompt lookups over the agent's extension-to-prompts map (`list_prompts`,
 * `get_prompt_info`), the role check applied to an injected prompt, and the
 * contents the completion cache is rebuilt to.
 */
module Prompts {
  import opened Wrappers
  import opened Messages

  datatype PromptArgument = PromptArgument(name: string, description: Option<string>, required: Option<bool>)

  datatype Prompt = Prompt(name: string, description: Option<string>, arguments: Option<seq<PromptArgument>>)

  /** `output::PromptInfo`: a prompt's metadata and the extension that owns it. */
  datatype PromptInfo = PromptInfo(
    name: string,
    description: Option<string>,
    arguments: Option<seq<PromptArgument>>,
    extension: Option<string>)

  /** What `list_extension_prompts` returns: each extension's prompts, in order. */
  type Registry = map<string, seq<Prompt>>

  function Names(ps: seq<Prompt>): (ns: seq<string>)
    ensures |ns| == |ps|
    ensures forall i | 0 <= i < |ps| :: ns[i] == ps[i].name
  {
    if ps == [] then [] else Names(ps[..|ps| - 1]) + [ps[|ps| - 1].name]
  }

  function InfoOf(p: Prompt, extension: string): PromptInfo {
    PromptInfo(p.name, p.description, p.arguments, Some(extension))
  }

  /** `order` visits every key exactly once: the iteration order of a `HashMap`. */
  predicate IsEnumeration(order: seq<string>, keys: set<string>) {
    && (forall i, j | 0 <= i < j < |order| :: order[i] != order[j])
    && (forall k | k in keys :: k in order)
    && (forall i | 0 <= i < |order| :: order[i] in keys)
  }

  /**
   * `list_prompts`: an unknown extension in the filter is an error; otherwise
   * every extension (no filter) or exactly the named one, each with its
   * prompts' names in order.
   */
  function ListPrompts(registry: Registry, filter: Option<string>): (r: Result<map<string, seq<string>>, string>)
    ensures r.Err? <==> filter.Some? && filter.value !in registry
    ensures r.Ok? ==> r.value.Keys == if filter.None? then registry.Keys else {filter.value}
    ensures r.Ok? ==> forall e | e in r.value :: e in registry && r.value[e] == Names(registry[e])
  {
    if filter.Some? && filter.value !in registry then
      Err("Extension '" + filter.value + "' not found")
    else
      Ok(map e | e in registry && (filter.None? || filter.value == e) :: Names(registry[e]))
  }

  /** The index of the first prompt with the given name (`Iterator::find`), or `|ps|`. */
  function FirstNamed(ps: seq<Prompt>, name: string): (k: nat)
    ensures k <= |ps|
    ensures k < |ps| ==> ps[k].name == name
    ensures forall j | 0 <= j < k :: ps[j].name != name
  {
    if ps == [] then 0 else if ps[0].name == name then 0 else 1 + FirstNamed(ps[1..], name)
  }

  /**
   * `get_prompt_info`: visit the extensions in `order` and report the first
   * prompt with the given name, with its owner; `None` when no extension has it.
   */
  function FindPromptInfo(registry: Registry, order: seq<string>, name: string): (r: Option<PromptInfo>)
    requires forall i | 0 <= i < |order| :: order[i] in registry
    ensures r.None? <==> forall i | 0 <= i < |order| :: name !in Names(registry[order[i]])
    ensures r.Some? ==> r.value.name == name
    ensures r.Some? ==> exists i | 0 <= i < |order| ::
      r.value.extension == Some(order[i]) && exists p | p in registry[order[i]] :: r.value == InfoOf(p, order[i])
    decreases |order|
  {
    if order == [] then None
    else
      var ps := registry[order[0]];
      var k := FirstNamed(ps, name);
      if k < |ps| then
        assert Names(ps)[k] == name;
        Some(InfoOf(ps[k], order[0]))
      else
        assert forall t | t in Names(ps) :: t != name;
        var r := FindPromptInfo(registry, order[1..], name);
        assert forall i | 0 <= i < |order| - 1 :: order[1..][i] == order[i + 1];
        r
  }

  /**
   * The owner `get_prompt_info` reports is the first extension in iteration
   * order that has a prompt of that name, and the prompt is that extension's
   * first one with the name.
   */
  lemma {:induction false} FindPromptInfoFirstOwner(registry: Registry, order: seq<string>, name: string, i: nat)
    requires forall j | 0 <= j < |order| :: order[j] in registry
    requires i < |order| && name in Names(registry[order[i]])
    requires forall j | 0 <= j < i :: name !in Names(registry[order[j]])
    ensures var ps := registry[order[i]];
      FirstNamed(ps, name) < |ps|
      && FindPromptInfo(registry, order, name) == Some(InfoOf(ps[FirstNamed(ps, name)], order[i]))
    decreases i
  {
    var ps := registry[order[i]];
    var idx :| 0 <= idx < |ps| && Names(ps)[idx] == name;
    assert FirstNamed(ps, name) <= idx;
    if i > 0 {
      assert forall j | 0 <= j < |order| - 1 :: order[1..][j] == order[j + 1];
      FindPromptInfoFirstOwner(registry, order[1..], name, i - 1);
    }
  }

  /** The role an injected prompt message must have at position `i`. */
  function ExpectedRole(i: nat): Role {
    if i % 2 == 0 then User else Assistant
  }

  /** Injected messages alternate User, Assistant, User, ... starting with User. */
  predicate Alternates(msgs: seq<Message>) {
    forall i | 0 <= i < |msgs| :: msgs[i].role == ExpectedRole(i)
  }

  /** The prompt names each extension offers: what the cache's `prompts` map is rebuilt to. */
  function PromptIndex(registry: Registry): map<string, seq<string>> {
    map e | e in registry :: Names(registry[e])
  }

  /** The unfiltered listing and the cache's `prompts` map agree. */
  lemma ListPromptsMatchesIndex(registry: Registry)
    ensures ListPrompts(registry, None) == Ok(PromptIndex(registry))
  {
    var r := ListPrompts(registry, None);
    assert r.value.Keys == PromptIndex(registry).Keys;
    assert r.value == PromptIndex(registry);
  }

  /** Inserting each prompt of one extension, in list order, into the `prompt_info` map. */
  function InsertInfos(m: map<string, PromptInfo>, extension: string, ps: seq<Prompt>): map<string, PromptInfo> {
    if ps == [] then m
    else InsertInfos(m, extension, ps[..|ps| - 1])[ps[|ps| - 1].name := InfoOf(ps[|ps| - 1], extension)]
  }

  /** The `prompt_info` map after visiting the extensions in `order`. */
  function InfoIndex(registry: Registry, order: seq<string>): map<string, PromptInfo>
    requires forall i | 0 <= i < |order| :: order[i] in registry
  {
    if order == [] then map[]
    else
      var e := order[|order| - 1];
      InsertInfos(InfoIndex(registry, order[..|order| - 1]), e, registry[e])
  }

  /** The prompt names of the extensions in `visited`: the cache's `prompts` map part way through a refresh. */
  function PartialIndex(registry: Registry, visited: seq<string>): map<string, seq<string>>
    requires forall i | 0 <= i < |visited| :: visited[i] in registry
  {
    map e | e in visited :: Names(registry[e])
  }

  lemma PartialIndexStep(registry: Registry, order: seq<string>, i: nat)
    requires i < |order|
    requires forall j | 0 <= j < |order| :: order[j] in registry
    ensures PartialIndex(registry, order[..i + 1])
      == PartialIndex(registry, order[..i])[order[i] := Names(registry[order[i]])]
    ensures InfoIndex(registry, order[..i + 1])
      == InsertInfos(InfoIndex(registry, order[..i]), order[i], registry[order[i]])
  {
    assert order[..i + 1] == order[..i] + [order[i]];
    assert order[..i + 1][..i] == order[..i];
    var a := PartialIndex(registry, order[..i + 1]);
    var b := PartialIndex(registry, order[..i])[order[i] := Names(registry[order[i]])];
    assert a.Keys == b.Keys;
  }

  lemma PartialIndexComplete(registry: Registry, order: seq<string>)
    requires IsEnumeration(order, registry.Keys)
    ensures PartialIndex(registry, order) == PromptIndex(registry)
  {
    assert PartialIndex(registry, order).Keys == PromptIndex(registry).Keys;
  }

  lemma InsertInfosSnoc(m: map<string, PromptInfo>, extension: string, ps: seq<Prompt>, j: nat)
    requires j < |ps|
    ensures InsertInfos(m, extension, ps[..j + 1])
      == InsertInfos(m, extension, ps[..j])[ps[j].name := InfoOf(ps[j], extension)]
  {
    assert ps[..j + 1][..j] == ps[..j];
  }

  /** `info` describes a prompt of `extension` named `name`, with `extension` as its owner. */
  ghost predicate DescribesPromptOf(info: PromptInfo, name: string, ps: seq<Prompt>, extension: string) {
    exists p | p in ps :: p.name == name && info == InfoOf(p, extension)
  }

  lemma NamesSnoc(ps: seq<Prompt>)
    requires ps != []
    ensures Names(ps) == Names(ps[..|ps| - 1]) + [ps[|ps| - 1].name]
  {
  }

  /** Each entry an extension's prompts put in is that extension's, for a prompt of that name. */
  lemma {:induction false} InsertInfosEntries(m: map<string, PromptInfo>, extension: string, ps: seq<Prompt>)
    ensures forall k :: k in InsertInfos(m, extension, ps) <==> k in m || k in Names(ps)
    ensures forall k | k in Names(ps) ::
      DescribesPromptOf(InsertInfos(m, extension, ps)[k], k, ps, extension)
    ensures forall k | k in m && k !in Names(ps) :: InsertInfos(m, extension, ps)[k] == m[k]
    decreases |ps|
  {
    if ps != [] {
      var init := ps[..|ps| - 1];
      var last := ps[|ps| - 1];
      InsertInfosEntries(m, extension, init);
      NamesSnoc(ps);
      var r := InsertInfos(m, extension, ps);
      var b := InsertInfos(m, extension, init);
      assert r == b[last.name := InfoOf(last, extension)];
      assert last in ps;
      forall k | k in Names(ps) ensures DescribesPromptOf(r[k], k, ps, extension) {
        if k != last.name {
          assert k in Names(init);
          assert DescribesPromptOf(b[k], k, init, extension);
          var p :| p in init && p.name == k && b[k] == InfoOf(p, extension);
          assert p in ps;
        }
      }
    }
  }

  /** `info` describes a prompt of some extension visited in `order`. */
  ghost predicate OwnedInOrder(info: PromptInfo, name: string, registry: Registry, order: seq<string>)
    requires forall i | 0 <= i < |order| :: order[i] in registry
  {
    exists i | 0 <= i < |order| :: DescribesPromptOf(info, name, registry[order[i]], order[i])
  }

  /**
   * After a refresh, `prompt_info` holds exactly the listed prompt names, and
   * each entry is the metadata of a prompt of that name together with an
   * extension that owns it.
   */
  lemma {:induction false} InfoIndexEntries(registry: Registry, order: seq<string>)
    requires forall i | 0 <= i < |order| :: order[i] in registry
    ensures forall k :: k in InfoIndex(registry, order) <==>
      exists i | 0 <= i < |order| :: k in Names(registry[order[i]])
    ensures forall k | k in InfoIndex(registry, order) ::
      OwnedInOrder(InfoIndex(registry, order)[k], k, registry, order)
    decreases |order|
  {
    if order != [] {
      var init := order[..|order| - 1];
      var e := order[|order| - 1];
      var ps := registry[e];
      assert forall i | 0 <= i < |init| :: init[i] == order[i];
      InfoIndexEntries(registry, init);
      var base := InfoIndex(registry, init);
      InsertInfosEntries(base, e, ps);
      var r := InfoIndex(registry, order);
      assert r == InsertInfos(base, e, ps);
      forall k ensures k in r <==> exists i | 0 <= i < |order| :: k in Names(registry[order[i]]) {
        if k in r && k !in base {
          assert k in Names(registry[order[|order| - 1]]);
        }
        if exists i | 0 <= i < |order| :: k in Names(registry[order[i]]) {
          var i :| 0 <= i < |order| && k in Names(registry[order[i]]);
          if i < |init| {
            assert init[i] == order[i];
          }
        }
      }
      forall k | k in r ensures OwnedInOrder(r[k], k, registry, order) {
        if k in Names(ps) {
          assert DescribesPromptOf(r[k], k, registry[order[|order| - 1]], order[|order| - 1]);
        } else {
          assert OwnedInOrder(base[k], k, registry, init);
          var i :| 0 <= i < |init| && DescribesPromptOf(base[k], k, registry[init[i]], init[i]);
          assert init[i] == order[i];
        }
      }
    }
  }

  /** A prompt name that only one extension offers is attributed to that extension. */
  lemma UniquePromptOwner(registry: Registry, order: seq<string>, name: string, owner: string)
    requires IsEnumeration(order, registry.Keys)
    requires owner in registry && name in Names(registry[owner])
    requires forall e | e in registry && e != owner :: name !in Names(registry[e])
    ensures name in InfoIndex(registry, order)
    ensures InfoIndex(registry, order)[name].extension == Some(owner)
  {
    InfoIndexEntries(registry, order);
    var i :| 0 <= i < |order| && order[i] == owner;
    var info := InfoIndex(registry, order)[name];
    assert OwnedInOrder(info, name, registry, order);
    var j :| 0 <= j < |order| && DescribesPromptOf(info, name, registry[order[j]], order[j]);
    var ps := registry[order[j]];
    var p :| p in ps && p.name == name && info == InfoOf(p, order[j]);
    NameOfMember(ps, p);
  }

  lemma NameOfMember(ps: seq<Prompt>, p: Prompt)
    requires p in ps
    ensures p.name in Names(ps)
  {
    var x :| 0 <= x < |ps| && ps[x] == p;
    assert Names(ps)[x] == p.name;
  }

  /** Inserting an extension's prompts fixes the entries for their names, whatever the map held before. */
  lemma {:induction false} InsertInfosBaseFree(m1: map<string, PromptInfo>, m2: map<string, PromptInfo>,
                                               extension: string, ps: seq<Prompt>, k: string)
    requires k in Names(ps)
    ensures k in InsertInfos(m1, extension, ps) && k in InsertInfos(m2, extension, ps)
    ensures InsertInfos(m1, extension, ps)[k] == InsertInfos(m2, extension, ps)[k]
    decreases |ps|
  {
    NamesSnoc(ps);
    var init := ps[..|ps| - 1];
    if k != ps[|ps| - 1].name {
      assert k in Names(init);
      InsertInfosBaseFree(m1, m2, extension, init, k);
    }
  }

  /**
   * The `prompt_info` entry of a name that only extension `order[i]` offers
   * is the one that extension's own prompts put there.
   */
  lemma {:induction false} InfoIndexOwned(registry: Registry, order: seq<string>, name: string, i: nat)
    requires forall j | 0 <= j < |order| :: order[j] in registry
    requires i < |order| && name in Names(registry[order[i]])
    requires forall j | 0 <= j < |order| && order[j] != order[i] :: name !in Names(registry[order[j]])
    ensures name in InfoIndex(registry, order) && name in InsertInfos(map[], order[i], registry[order[i]])
    ensures InfoIndex(registry, order)[name] == InsertInfos(map[], order[i], registry[order[i]])[name]
    decreases |order|
  {
    var init := order[..|order| - 1];
    var e := order[|order| - 1];
    var base := InfoIndex(registry, init);
    assert InfoIndex(registry, order) == InsertInfos(base, e, registry[e]);
    if e == order[i] {
      InsertInfosBaseFree(base, map[], e, registry[e], name);
    } else {
      InsertInfosBaseFree(map[], map[], order[i], registry[order[i]], name);
      assert i < |init| && init[i] == order[i];
      assert forall j | 0 <= j < |init| :: init[j] == order[j];
      InfoIndexOwned(registry, init, name, i);
      InsertInfosEntries(base, e, registry[e]);
    }
  }

  /** No two extensions offer a prompt of the same name. */
  predicate UniqueNames(registry: Registry) {
    forall e1, e2, k | e1 in registry && e2 in registry && e1 != e2 && k in Names(registry[e1]) ::
      k !in Names(registry[e2])
  }

  /** Under unique names, the entry for a name comes from its one owner, in any visiting order. */
  lemma InfoIndexOfOwner(registry: Registry, order: seq<string>, name: string, owner: string)
    requires IsEnumeration(order, registry.Keys) && UniqueNames(registry)
    requires owner in registry && name in Names(registry[owner])
    ensures name in InfoIndex(registry, order) && name in InsertInfos(map[], owner, registry[owner])
    ensures InfoIndex(registry, order)[name] == InsertInfos(map[], owner, registry[owner])[name]
  {
    var i :| 0 <= i < |order| && order[i] == owner;
    forall j | 0 <= j < |order| && order[j] != owner ensures name !in Names(registry[order[j]]) {
      assert order[j] in registry;
    }
    InfoIndexOwned(registry, order, name, i);
  }

  /** Every name in `prompt_info` is offered by some extension of the registry. */
  lemma OwnerOf(registry: Registry, order: seq<string>, name: string) returns (owner: string)
    requires forall i | 0 <= i < |order| :: order[i] in registry
    requires name in InfoIndex(registry, order)
    ensures owner in registry && name in Names(registry[owner])
  {
    InfoIndexEntries(registry, order);
    var i :| 0 <= i < |order| && name in Names(registry[order[i]]);
    owner := order[i];
  }

  /**
   * When no two extensions offer a prompt of the same name, `prompt_info`
   * does not depend on the order the extensions are visited in.
   */
  lemma InfoIndexOrderFree(registry: Registry, order1: seq<string>, order2: seq<string>)
    requires IsEnumeration(order1, registry.Keys) && IsEnumeration(order2, registry.Keys)
    requires UniqueNames(registry)
    ensures InfoIndex(registry, order1) == InfoIndex(registry, order2)
  {
    var m1 := InfoIndex(registry, order1);
    var m2 := InfoIndex(registry, order2);
    forall k | k in m1 ensures k in m2 && m1[k] == m2[k] {
      var e := OwnerOf(registry, order1, k);
      InfoIndexOfOwner(registry, order1, k, e);
      InfoIndexOfOwner(registry, order2, k, e);
    }
    forall k | k in m2 ensures k in m1 {
      var e := OwnerOf(registry, order2, k);
      InfoIndexOfOwner(registry, order1, k, e);
    }
    assert m1.Keys == m2.Keys;
  }
}
