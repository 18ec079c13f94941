/**
 * The routing table `main` builds from the parsed configuration: one entry
 * per server name, a later block with the same name replacing an earlier one
 * (src/main.rs, the loop inserting into `config_map`).
 */
module RoutingTable {
  import opened Wrappers
  import opened ConfigParser

  /** The server names that occur in `configs`. */
  function Names(configs: seq<ServerConfig>): (names: set<string>)
    ensures forall c :: c in configs ==> c.servername in names
    ensures forall n :: n in names ==> exists c :: c in configs && c.servername == n
  {
    set c | c in configs :: c.servername
  }

  /** The last block in `configs` named `name`, if any. */
  function LastWith(configs: seq<ServerConfig>, name: string): (r: Option<ServerConfig>)
    ensures r.Some? ==> r.value in configs && r.value.servername == name
    ensures r.None? <==> forall c :: c in configs ==> c.servername != name
  {
    if configs == [] then None
    else if configs[|configs| - 1].servername == name then Some(configs[|configs| - 1])
    else
      assert forall c :: c in configs ==> c in configs[..|configs| - 1] || c == configs[|configs| - 1];
      LastWith(configs[..|configs| - 1], name)
  }

  /**
   * `LastWith` picks the block at some position `i` with the right name such
   * that no later block has that name.
   */
  lemma {:induction false} LastWithIsLast(configs: seq<ServerConfig>, name: string)
    requires LastWith(configs, name).Some?
    ensures exists i ::
      0 <= i < |configs| && configs[i] == LastWith(configs, name).value
      && forall j :: i < j < |configs| ==> configs[j].servername != name
  {
    var last := |configs| - 1;
    if configs[last].servername == name {
      assert configs[last] == LastWith(configs, name).value;
    } else {
      var front := configs[..last];
      assert LastWith(configs, name) == LastWith(front, name);
      LastWithIsLast(front, name);
      var i :| 0 <= i < |front| && front[i] == LastWith(front, name).value
        && forall j :: i < j < |front| ==> front[j].servername != name;
      forall j | i < j < |configs|
        ensures configs[j].servername != name
      {
        if j < last {
          assert configs[j] == front[j];
        }
      }
      assert configs[i] == front[i];
    }
  }

  /** Appending a block updates its name only. */
  lemma LastWithSnoc(configs: seq<ServerConfig>, c: ServerConfig, name: string)
    ensures LastWith(configs + [c], name)
      == if c.servername == name then Some(c) else LastWith(configs, name)
  {
    assert (configs + [c])[..|configs|] == configs;
  }

  lemma NamesSnoc(configs: seq<ServerConfig>, c: ServerConfig)
    ensures Names(configs + [c]) == Names(configs) + {c.servername}
  {
  }

  /**
   * The table built from `configs` maps exactly the names that occur to the
   * last block carrying each.
   */
  ghost predicate IsTableOf(table: map<string, ServerConfig>, configs: seq<ServerConfig>)
  {
    table.Keys == Names(configs)
    && forall n :: n in table ==> LastWith(configs, n) == Some(table[n])
  }

  /** At most one table fits a configuration. */
  lemma TableUnique(t1: map<string, ServerConfig>, t2: map<string, ServerConfig>, configs: seq<ServerConfig>)
    requires IsTableOf(t1, configs) && IsTableOf(t2, configs)
    ensures t1 == t2
  {
    assert forall n :: n in t1 ==> t1[n] == t2[n] by {
      forall n | n in t1
        ensures t1[n] == t2[n]
      {
        assert Some(t1[n]) == LastWith(configs, n) == Some(t2[n]);
      }
    }
  }

  /** Every entry is filed under its own server name. */
  lemma TableKeysAreNames(table: map<string, ServerConfig>, configs: seq<ServerConfig>, n: string)
    requires IsTableOf(table, configs) && n in table
    ensures table[n].servername == n && table[n] in configs
  {
    assert LastWith(configs, n) == Some(table[n]);
  }

  /** The loop of `main`: insert every block under its name, in order. */
  method BuildTable(configs: seq<ServerConfig>) returns (table: map<string, ServerConfig>)
    ensures table.Keys == Names(configs)
    ensures forall n :: n in table ==> LastWith(configs, n) == Some(table[n])
  {
    table := map[];
    for k := 0 to |configs|
      invariant table.Keys == Names(configs[..k])
      invariant forall n :: n in table ==> LastWith(configs[..k], n) == Some(table[n])
    {
      var c := configs[k];
      assert configs[..k + 1] == configs[..k] + [c];
      NamesSnoc(configs[..k], c);
      forall n {
        LastWithSnoc(configs[..k], c, n);
      }
      table := table[c.servername := c];
    }
    assert configs[..|configs|] == configs;
  }

  /**
   * Start-up: parse the configuration text, keep the blocks `parse_config`
   * returned (discarding the text it left) and build the table; `None` when
   * the process aborts because a port did not fit in 16 bits.
   */
  method Startup(text: string) returns (table: Option<map<string, ServerConfig>>)
    ensures table.None? <==> ParseConfig(text).Panic?
    ensures table.Some? ==> IsTableOf(table.value, ParseConfig(text).value)
  {
    var parsed := ParseConfig(text);
    if parsed.Panic? {
      return None;
    }
    var built := BuildTable(parsed.value);
    return Some(built);
  }
}
