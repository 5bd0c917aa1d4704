/** harness/model.py, `Session`: one simulated speaker, as every other part of the harness sees it. */
module Sessions {
  import opened Wrappers

  /** `{fleet}-c{index}`. */
  datatype ContainerName = ContainerName(fleet: string, index: nat)

  /** Addresses are numbers; a peer-group name may be absent. */
  datatype Session = Session(
    fleet: string, index: nat, fabric: string, asn: int, v4: Option<int>, v6: Option<int>,
    container: ContainerName, apiPort: int, pg4: Option<string>, pg6: Option<string>,
    prefixesV4: int, prefixesV6: int, pathsPerPrefix: int, nlriSlot: nat)
  {
    function Prefixes(v6: bool): int {
      if v6 then prefixesV6 else prefixesV4
    }

    /** What is written as an address is one. */
    predicate Addressed() {
      && (v4.Some? ==> 0 <= v4.value < 0x1_0000_0000)
      && (v6.Some? ==> 0 <= v6.value < 0x1_0000_0000_0000_0000_0000_0000_0000_0000)
    }
  }

  /** A speaker alone in its container. */
  function Lone(asn: int, v4: Option<int>, v6: Option<int>, prefixesV4: int, prefixesV6: int, paths: int,
                slot: nat): Session {
    Session("a", 0, "x", asn, v4, v6, ContainerName("a", 0), 50051, None, None, prefixesV4, prefixesV6, paths, slot)
  }
}
