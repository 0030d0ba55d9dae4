/** The configuration object: it collects the fallback parents, validates itself and reads its inbounds. */
module XrayConfig {
  import opened Wrappers
  import opened SyntheticTags
  import opened Fallbacks

  function First(inbounds: seq<Inbound>, tag: string): Option<Inbound> {
    if inbounds == [] then None
    else if inbounds[0].tag == tag then Some(inbounds[0])
    else First(inbounds[1..], tag)
  }

  /** The tags of the inbounds that define fallbacks. */
  function AutoTags(inbounds: seq<Inbound>): set<string> {
    set inbound <- inbounds | inbound.dests != [] :: inbound.tag
  }

  /** A fallback parent: the first inbound of a tag that was chosen or that some inbound with fallbacks has. */
  ghost predicate IsParent(inbounds: seq<Inbound>, explicit: set<string>, p: Inbound) {
    && p.tag != "" && First(inbounds, p.tag) == Some(p)
    && (p.tag in explicit || exists inbound <- inbounds :: inbound.tag == p.tag && inbound.dests != [])
  }

  predicate ValidTag(tag: string) {
    tag != "" && ',' !in tag && !Marked(tag)
  }

  predicate ValidConfig(inbounds: seq<Inbound>, outbounds: seq<string>) {
    && inbounds != [] && outbounds != []
    && (forall inbound <- inbounds :: ValidTag(inbound.tag))
    && (forall tag <- outbounds :: tag != "")
  }

  /** The inbound of this tag that no other of the tag stands before. */
  ghost predicate IsFirst(inbounds: seq<Inbound>, tag: string, n: nat) {
    n < |inbounds| && inbounds[n].tag == tag && forall i :: 0 <= i < n ==> inbounds[i].tag != tag
  }

  lemma {:induction false} FirstHasTag(inbounds: seq<Inbound>, tag: string)
    ensures First(inbounds, tag) == None <==> forall inbound <- inbounds :: inbound.tag != tag
    ensures First(inbounds, tag).Some? ==>
              exists n: nat :: IsFirst(inbounds, tag, n) && First(inbounds, tag).value == inbounds[n]
  {
    if inbounds != [] {
      FirstHasTag(inbounds[1..], tag);
      if inbounds[0].tag == tag {
        assert IsFirst(inbounds, tag, 0);
      } else if First(inbounds, tag).Some? {
        var n: nat :| IsFirst(inbounds[1..], tag, n) && First(inbounds[1..], tag).value == inbounds[1..][n];
        assert IsFirst(inbounds, tag, n + 1) && inbounds[n + 1] == inbounds[1..][n];
      }
    }
  }

  lemma ParentsAreUnique(inbounds: seq<Inbound>, explicit: set<string>, parents: seq<Inbound>)
    requires forall p <- parents :: IsParent(inbounds, explicit, p)
    ensures UniqueTags(parents) && forall p <- parents :: p in inbounds
  {
    forall p | p in parents ensures p in inbounds { FirstHasTag(inbounds, p.tag); }
  }

  /** Every entry is its inbound's own, or that of the inbound behind the parent its tag names. */
  ghost predicate EntriesRight(cfg: Config, byTag: map<string, Settings>) {
    forall c <- cfg.inbounds :: OwnEntry(byTag, c) && forall p <- cfg.parents :: EntryBehind(byTag, c, p)
  }

  lemma LoadedEntriesRight(cfg: Config, index: Index)
    requires (forall inbound <- cfg.inbounds :: !Marked(inbound.tag)) && UniqueTags(cfg.inbounds) &&
             UniqueTags(cfg.parents) && Justified(cfg, cfg.inbounds, index)
    ensures EntriesRight(cfg, index.byTag)
  {
    forall c | c in cfg.inbounds
      ensures OwnEntry(index.byTag, c) && forall p <- cfg.parents :: EntryBehind(index.byTag, c, p)
    {
      if c.tag in index.byTag { OwnEntryIsDetermined(cfg, index, c); }
      forall p | p in cfg.parents ensures EntryBehind(index.byTag, c, p) { EntriesAreDetermined(cfg, index, c, p); }
    }
  }

  /** No registered tag, real or synthetic, is empty or has a comma, so lists of them can be joined by commas. */
  lemma RegisteredTagsAreValid(cfg: Config, outbounds: seq<string>, tags: seq<string>)
    requires ValidConfig(cfg.inbounds, outbounds) && forall p <- cfg.parents :: p in cfg.inbounds
    requires forall tag <- tags :: ToRegister(cfg, cfg.inbounds, tag)
    ensures forall tag <- tags :: tag != "" && ',' !in tag
  {
    forall tag | tag in tags ensures tag != "" && ',' !in tag {
      if c, p :| c in cfg.inbounds && p in cfg.parents && tag == c.tag + "<=>" + p.tag {
        assert ValidTag(c.tag) && ValidTag(p.tag);
      }
    }
  }

  class XRayConfig {
    const inbounds: seq<Inbound>
    const outbounds: seq<string>          // tags
    const fallbacksInboundTags: set<string>
    const excludeInboundTags: set<string>
    const streamFails: string -> bool
    var fallbacksInbound: seq<Inbound>
    var inboundTags: seq<string>
    var inboundsByTag: map<string, Settings>

    constructor (inbounds: seq<Inbound>, outbounds: seq<string>, exclude: set<string>, fallbacks: set<string>,
                 streamFails: string -> bool)
      ensures this.inbounds == inbounds && this.outbounds == outbounds && this.streamFails == streamFails
      ensures fallbacksInboundTags == fallbacks && excludeInboundTags == exclude + fallbacks
      ensures fallbacksInbound == [] && inboundTags == [] && inboundsByTag == map[]
    {
      this.inbounds := inbounds;
      this.outbounds := outbounds;
      this.streamFails := streamFails;
      fallbacksInboundTags := fallbacks;
      excludeInboundTags := exclude + fallbacks;
      fallbacksInbound := [];
      inboundTags := [];
      inboundsByTag := map[];
    }

    function Cfg(): Config
      reads this`fallbacksInbound
    {
      Config(inbounds, excludeInboundTags, fallbacksInbound, streamFails)
    }

    function Idx(): Index
      reads this`inboundTags, this`inboundsByTag
    {
      Index(inboundTags, inboundsByTag)
    }

    /** `get_inbound`. */
    method GetInbound(tag: string) returns (inbound: Option<Inbound>)
      ensures inbound == First(inbounds, tag)
      ensures inbound == None <==> forall other <- inbounds :: other.tag != tag
      ensures inbound.Some? ==> exists n: nat :: IsFirst(inbounds, tag, n) && inbound.value == inbounds[n]
    {
      FirstHasTag(inbounds, tag);
      for i := 0 to |inbounds|
        invariant First(inbounds[i..], tag) == First(inbounds, tag)
      {
        if inbounds[i].tag == tag { return Some(inbounds[i]); }
        assert inbounds[i..][1..] == inbounds[i + 1..];
      }
      return None;
    }

    /** `_collect_fallback_inbounds`; the order of the set is left open. */
    method CollectFallbackInbounds()
      requires fallbacksInbound == []
      modifies this`fallbacksInbound
      ensures forall p :: p in fallbacksInbound <==> IsParent(inbounds, fallbacksInboundTags, p)
    {
      var fallbackTags := fallbacksInboundTags + AutoTags(inbounds);
      ghost var all := fallbackTags;
      while fallbackTags != {}
        invariant fallbackTags <= all
        invariant forall p :: p in fallbacksInbound <==>
                              p.tag != "" && p.tag in all - fallbackTags && First(inbounds, p.tag) == Some(p)
        decreases fallbackTags
      {
        var tag :| tag in fallbackTags;
        fallbackTags := fallbackTags - {tag};
        if tag != "" {
          var inbound := GetInbound(tag);
          if inbound.Some? { fallbacksInbound := fallbacksInbound + [inbound.value]; }
        }
      }
    }

    /** `_validate`. */
    method Validate() returns (error: Option<Error>)
      ensures error == None <==> ValidConfig(inbounds, outbounds)
      ensures error == Some(NoInbounds) <==> inbounds == []
      ensures error == Some(NoOutbounds) <==> inbounds != [] && outbounds == []
      ensures error == Some(BadTag) <==>
              inbounds != [] && outbounds != [] && exists inbound <- inbounds :: !ValidTag(inbound.tag)
      ensures error.Some? ==> error.value in {NoInbounds, NoOutbounds, BadTag, BadOutboundTag}
    {
      if inbounds == [] { return Some(NoInbounds); }
      if outbounds == [] { return Some(NoOutbounds); }
      for i := 0 to |inbounds|
        invariant forall inbound <- inbounds[..i] :: ValidTag(inbound.tag)
      {
        if !ValidTag(inbounds[i].tag) {
          assert inbounds[i] in inbounds;
          return Some(BadTag);
        }
      }
      assert inbounds[..|inbounds|] == inbounds;
      for i := 0 to |outbounds|
        invariant forall j :: 0 <= j < i ==> outbounds[j] != ""
      {
        if outbounds[i] == "" {
          assert outbounds[i] in outbounds;
          return Some(BadOutboundTag);
        }
      }
      return None;
    }

    /** `_find_fallback_inbound`. */
    method FindFallbacks(inbound: Inbound) returns (fallbacks: seq<Inbound>)
      ensures fallbacks == FindFallbackInbound(fallbacksInbound, inbound)
    {
      fallbacks := [];
      for i := 0 to |fallbacksInbound|
        invariant fallbacks == FindFallbackInbound(fallbacksInbound[..i], inbound)
      {
        var parent := fallbacksInbound[i];
        assert fallbacksInbound[..i + 1][..i] == fallbacksInbound[..i];
        ghost var before := fallbacks;
        for j := 0 to |parent.dests|
          invariant fallbacks == before + Repeats(parent, parent.dests[..j], inbound)
        {
          assert parent.dests[..j + 1][..j] == parent.dests[..j];
          if parent.dests[j] == inbound.listen ||
            parent.dests[j] == (if inbound.port.Some? then inbound.port.value else Num(0)) {
            fallbacks := fallbacks + [parent];
          }
        }
        assert parent.dests[..|parent.dests|] == parent.dests;
      }
      assert fallbacksInbound[..|fallbacksInbound|] == fallbacksInbound;
    }

    /** `_handle_port_settings`. */
    method HandlePortSettings(inbound: Inbound) returns (r: Result<seq<Inbound>, Error>)
      ensures r == PortSettings(Cfg(), inbound)
    {
      var portFound := inbound.port.Some?;
      if fallbacksInbound != [] && !Marked(inbound.tag) {
        if inbound.dests != [] {
          if !portFound && !IsUnixSocket(inbound) { return Err(NoPort); }
          return Ok([]);
        }
        var fallbacks := FindFallbacks(inbound);
        if fallbacks != [] { return Ok(fallbacks); }
      }
      if !portFound && !IsUnixSocket(inbound) { return Err(NoPort); }
      return Ok([]);
    }

    /** `_read_inbound`, which calls itself for synthetic inbounds only. */
    method ReadInbound(inbound: Inbound) returns (error: Option<Error>)
      modifies this`inboundTags, this`inboundsByTag
      ensures Read(Cfg(), old(Idx()), inbound) == if error.Some? then Err(error.value) else Ok(Idx())
      decreases Rank(inbound)
    {
      ghost var start := Idx();
      if inbound.protocol == Unsupported { return None; }
      if inbound.tag in excludeInboundTags { return None; }
      var port := HandlePortSettings(inbound);
      if port.Err? { return Some(port.error); }
      if inbound.settingsError { return Some(BadSettings); }
      if inbound.stream.Some? {
        if NeedsTlsError(inbound) { return Some(NeedsTls); }
        var fallbacks := port.value;
        for i := 0 to |fallbacks|
          invariant Expand(Cfg(), Idx(), inbound, fallbacks[i..]) == Expand(Cfg(), start, inbound, fallbacks)
        {
          var parent := fallbacks[i];
          assert fallbacks[i..][0] == parent && fallbacks[i..][1..] == fallbacks[i + 1..];
          var tag := Synthetic(inbound.tag, parent.tag);
          if tag in inboundsByTag { continue; }
          if parent.port == None { return Some(FallbackWithoutPort); }
          SyntheticMark(inbound.tag, parent.tag);
          var failed := ReadInbound(MakeFallbackInbound(inbound, parent));
          if failed.Some? { return failed; }
        }
        if streamFails(inbound.tag) { return Some(BadStream); }
      }
      if inbound.tag !in inboundTags {
        inboundTags := inboundTags + [inbound.tag];
        inboundsByTag := inboundsByTag[inbound.tag := SettingsOf(inbound)];
      }
      return None;
    }

    /** `_resolve_inbounds`. */
    method ResolveInbounds() returns (error: Option<Error>)
      modifies this`inboundTags, this`inboundsByTag
      ensures ReadAll(Cfg(), old(Idx()), inbounds) == if error.Some? then Err(error.value) else Ok(Idx())
    {
      ghost var start := Idx();
      for i := 0 to |inbounds|
        invariant ReadAll(Cfg(), Idx(), inbounds[i..]) == ReadAll(Cfg(), start, inbounds)
      {
        assert inbounds[i..][1..] == inbounds[i + 1..];
        var failed := ReadInbound(inbounds[i]);
        if failed.Some? { return failed; }
      }
      return None;
    }

    /** The rest of the constructor: it succeeds exactly for valid configurations whose every inbound is
        acceptable, and then exactly the expected tags are registered, with their own settings. */
    method Load() returns (error: Option<Error>)
      requires fallbacksInbound == [] && inboundTags == [] && inboundsByTag == map[]
      modifies this
      ensures forall p :: p in fallbacksInbound <==> IsParent(inbounds, fallbacksInboundTags, p)
      ensures error == None <==> ValidConfig(inbounds, outbounds) && AllAcceptable(Cfg(), 0)
      ensures error == None ==> WellFormed(Idx()) && forall tag :: tag in inboundTags <==>
                                                                  ToRegister(Cfg(), inbounds, tag)
      ensures error == None ==> inboundTags == AppendNew([], ListOfAll(Cfg(), inbounds))
      ensures error == None ==> forall tag <- inboundTags :: tag != "" && ',' !in tag
      ensures error == None && UniqueTags(inbounds) ==> EntriesRight(Cfg(), inboundsByTag)
      ensures error.Some? && ValidConfig(inbounds, outbounds) ==>
                exists c <- inbounds :: Included(Cfg(), c) && Cause(Cfg(), c, error.value)
    {
      CollectFallbackInbounds();
      ParentsAreUnique(inbounds, fallbacksInboundTags, fallbacksInbound);
      error := Validate();
      if error.Some? { return; }
      error := ResolveInbounds();
      LoadsExactly(Cfg());
      if error == None {
        ResolveIsExact(Cfg());
        RegisteredTagsAreValid(Cfg(), outbounds, inboundTags);
        ReadAllAppends(Cfg(), Index([], map[]), inbounds, inbounds);
        if UniqueTags(inbounds) { LoadedEntriesRight(Cfg(), Idx()); }
      } else {
        ghost var c := ErrorHasCause(Cfg(), Index([], map[]), inbounds);
      }
    }
  }
}
