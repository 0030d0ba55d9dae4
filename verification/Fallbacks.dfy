/** How an Xray configuration turns inbounds behind fallbacks into synthetic inbounds. */
module Fallbacks {
  import opened Wrappers
  import opened SyntheticTags

  /** The JSON values a fallback's dest can be compared with. */
  datatype Json = Null | Num(n: int) | Str(s: string)

  datatype Protocol = Vmess | Vless | Trojan | Shadowsocks | Hysteria | Anytls | Tuic | Naive | Unsupported

  datatype Security = NoSecurity | Tls | Reality | OtherSecurity

  /** An inbound; an absent tag is "", an absent listen Null, an absent dest Str("").  `settingsError` is
      what the checks of the protocol's own settings raise (vless encryption, shadowsocks method). */
  datatype Inbound = Inbound(
    tag: string,
    protocol: Protocol,
    listen: Json,
    port: Option<Json>,
    dests: seq<Json>,
    settingsError: bool,
    stream: Option<Security>)

  /** What is registered under a tag, as far as it is modelled. */
  datatype Settings = Settings(tag: string, protocol: Protocol, port: Option<Json>, tls: Security)

  datatype Error =
    | NoInbounds | NoOutbounds | BadTag | BadOutboundTag
    | NoPort | BadSettings | NeedsTls | FallbackWithoutPort | BadStream

  /** What reading an inbound depends on.  `streamFails` stands for the certificate, Reality and network
      handlers, which may reject the inbound of that tag. */
  datatype Config = Config(inbounds: seq<Inbound>, exclude: set<string>, parents: seq<Inbound>,
                           streamFails: string -> bool)

  /** `_inbounds` and `_inbounds_by_tag`. */
  datatype Index = Index(tags: seq<string>, byTag: map<string, Settings>)

  predicate IsUnixSocket(inbound: Inbound) {
    inbound.listen.Str? && inbound.listen.s != "" && (inbound.listen.s[0] == '/' || inbound.listen.s[0] == '@')
  }

  predicate DestMatches(dest: Json, inbound: Inbound) {
    dest == inbound.listen || dest == if inbound.port.Some? then inbound.port.value else Num(0)
  }

  /** `_find_fallback_inbound`: a parent once per matching fallback of it. */
  function FindFallbackInbound(parents: seq<Inbound>, inbound: Inbound): seq<Inbound> {
    if parents == [] then []
    else FindFallbackInbound(parents[..|parents| - 1], inbound) +
         Repeats(parents[|parents| - 1], parents[|parents| - 1].dests, inbound)
  }

  function Repeats(parent: Inbound, dests: seq<Json>, inbound: Inbound): seq<Inbound> {
    if dests == [] then []
    else
      Repeats(parent, dests[..|dests| - 1], inbound) +
      if DestMatches(dests[|dests| - 1], inbound) then [parent] else []
  }

  predicate Matches(parent: Inbound, inbound: Inbound) {
    exists d <- parent.dests :: DestMatches(d, inbound)
  }

  /** The parent has a fallback to what the inbound listens on, or to its port; without one, to port 0. */
  predicate PointsTo(parent: Inbound, inbound: Inbound) {
    exists d <- parent.dests ::
      d == inbound.listen || Some(d) == inbound.port || (inbound.port == None && d == Num(0))
  }

  lemma {:induction false} RepeatsMeans(parent: Inbound, dests: seq<Json>, inbound: Inbound, p: Inbound)
    ensures p in Repeats(parent, dests, inbound) <==> p == parent && exists d <- dests :: DestMatches(d, inbound)
  {
    if dests != [] {
      var before, last := dests[..|dests| - 1], dests[|dests| - 1];
      RepeatsMeans(parent, before, inbound, p);
      assert forall d :: d in dests <==> d in before || d == last;
    }
  }

  lemma {:induction false} FindFallbackInboundMeans(parents: seq<Inbound>, inbound: Inbound, p: Inbound)
    ensures p in FindFallbackInbound(parents, inbound) <==> p in parents && Matches(p, inbound)
    ensures Matches(p, inbound) <==> PointsTo(p, inbound)
  {
    if parents != [] {
      var before, last := parents[..|parents| - 1], parents[|parents| - 1];
      FindFallbackInboundMeans(before, inbound, p);
      RepeatsMeans(last, last.dests, inbound, p);
      assert forall x :: x in parents <==> x in before || x == last;
    }
  }

  /** `_handle_port_settings`: the fallbacks to expand, or the missing port. */
  function PortSettings(cfg: Config, inbound: Inbound): Result<seq<Inbound>, Error> {
    var noPort := inbound.port == None && !IsUnixSocket(inbound);
    var fallbacks := if cfg.parents != [] && !Marked(inbound.tag) && inbound.dests == []
                     then FindFallbackInbound(cfg.parents, inbound) else [];
    if fallbacks != [] then Ok(fallbacks)
    else if noPort then Err(NoPort)
    else Ok([])
  }

  predicate NeedsTlsError(inbound: Inbound)
    requires inbound.stream.Some?
  {
    || (inbound.protocol == Hysteria && inbound.stream.value != Tls)
    || (inbound.protocol in {Anytls, Tuic, Naive} && inbound.stream.value !in {Tls, Reality})
  }

  function SettingsOf(inbound: Inbound): Settings {
    Settings(inbound.tag, inbound.protocol, inbound.port,
             if inbound.stream.Some? && inbound.stream.value in {Tls, Reality} then inbound.stream.value
             else NoSecurity)
  }

  function Register(index: Index, inbound: Inbound): Index {
    if inbound.tag in index.tags then index
    else Index(index.tags + [inbound.tag], index.byTag[inbound.tag := SettingsOf(inbound)])
  }

  /** `_make_fallback_inbound`: the child behind the parent's port and security. */
  function MakeFallbackInbound(child: Inbound, parent: Inbound): Inbound
    requires parent.port.Some?
  {
    child.(tag := Synthetic(child.tag, parent.tag), port := parent.port,
           stream := Some(if parent.stream.Some? then parent.stream.value else NoSecurity))
  }

  predicate Readable(cfg: Config, inbound: Inbound) {
    inbound.protocol != Unsupported && inbound.tag !in cfg.exclude
  }

  function Rank(inbound: Inbound): nat {
    if Marked(inbound.tag) then 0 else 1
  }

  /** What `_read_inbound` makes of the index. */
  function Read(cfg: Config, index: Index, inbound: Inbound): Result<Index, Error>
    decreases Rank(inbound), 1, 0
  {
    if !Readable(cfg, inbound) then Ok(index)
    else
      match PortSettings(cfg, inbound)
      case Err(e) => Err(e)
      case Ok(fallbacks) =>
        if inbound.settingsError then Err(BadSettings)
        else if inbound.stream == None then Ok(Register(index, inbound))
        else if NeedsTlsError(inbound) then Err(NeedsTls)
        else
          match Expand(cfg, index, inbound, fallbacks)
          case Err(e) => Err(e)
          case Ok(expanded) => if cfg.streamFails(inbound.tag) then Err(BadStream) else Ok(Register(expanded, inbound))
  }

  /** The loop over the fallbacks of an inbound. */
  function Expand(cfg: Config, index: Index, child: Inbound, fallbacks: seq<Inbound>): Result<Index, Error>
    requires fallbacks != [] ==> !Marked(child.tag)
    decreases Rank(child), 0, |fallbacks|
  {
    if fallbacks == [] then Ok(index)
    else
      var parent := fallbacks[0];
      if Synthetic(child.tag, parent.tag) in index.byTag then Expand(cfg, index, child, fallbacks[1..])
      else if parent.port == None then Err(FallbackWithoutPort)
      else
        SyntheticMark(child.tag, parent.tag);
        match Read(cfg, index, MakeFallbackInbound(child, parent))
        case Err(e) => Err(e)
        case Ok(next) => Expand(cfg, next, child, fallbacks[1..])
  }

  function ReadAll(cfg: Config, index: Index, inbounds: seq<Inbound>): Result<Index, Error>
    decreases inbounds
  {
    if inbounds == [] then Ok(index)
    else
      match Read(cfg, index, inbounds[0])
      case Err(e) => Err(e)
      case Ok(next) => ReadAll(cfg, next, inbounds[1..])
  }

  // ----- What gets registered -----

  ghost predicate Distinct(tags: seq<string>) {
    forall i, j :: 0 <= i < j < |tags| ==> tags[i] != tags[j]
  }

  /** No tag twice, and the list and the index have the same tags. */
  ghost predicate WellFormed(index: Index) {
    Distinct(index.tags) && index.byTag.Keys == Tags(index)
  }

  function Tags(index: Index): set<string> {
    set t <- index.tags
  }

  /** The parents an inbound is expanded for. */
  predicate Expands(cfg: Config, child: Inbound, parent: Inbound) {
    && Readable(cfg, child) && child.stream.Some? && child.dests == [] && !Marked(child.tag)
    && parent in cfg.parents && Matches(parent, child)
  }

  function SyntheticTagsOf(cfg: Config, child: Inbound): set<string> {
    set p <- cfg.parents | Expands(cfg, child, p) && Synthetic(child.tag, p.tag) !in cfg.exclude ::
      Synthetic(child.tag, p.tag)
  }

  function OwnTag(cfg: Config, inbound: Inbound): set<string> {
    if Readable(cfg, inbound) then {inbound.tag} else {}
  }

  /** Every entry describes an inbound of its tag, real or made for one of its parents. */
  ghost predicate Justified(cfg: Config, inbounds: seq<Inbound>, index: Index) {
    forall t <- index.byTag :: index.byTag[t].tag == t && JustifiedEntry(cfg, inbounds, index.byTag[t])
  }

  ghost predicate JustifiedEntry(cfg: Config, inbounds: seq<Inbound>, s: Settings) {
    || (exists c <- inbounds :: s == SettingsOf(c))
    || (exists c <- inbounds, p <- cfg.parents ::
          Expands(cfg, c, p) && p.port.Some? && s == SettingsOf(MakeFallbackInbound(c, p)))
  }

  /** An index that is well formed and holds only what it should. */
  ghost predicate Sound(cfg: Config, inbounds: seq<Inbound>, index: Index) {
    WellFormed(index) && Justified(cfg, inbounds, index)
  }

  lemma RegisterAdds(index: Index, inbound: Inbound)
    requires WellFormed(index)
    ensures WellFormed(Register(index, inbound))
    ensures Tags(Register(index, inbound)) == Tags(index) + {inbound.tag}
    ensures forall t <- Register(index, inbound).byTag ::
              (t in index.byTag && Register(index, inbound).byTag[t] == index.byTag[t]) ||
              (t == inbound.tag && Register(index, inbound).byTag[t] == SettingsOf(inbound))
  {
    var r := Register(index, inbound);
    if inbound.tag !in index.tags {
      assert forall t :: t in r.tags <==> t in index.tags || t == inbound.tag;
    } else {
      assert inbound.tag in Tags(index);
    }
  }

  lemma RegisterKeepsSound(cfg: Config, inbounds: seq<Inbound>, index: Index, inbound: Inbound)
    requires Sound(cfg, inbounds, index) && JustifiedEntry(cfg, inbounds, SettingsOf(inbound))
    ensures Sound(cfg, inbounds, Register(index, inbound))
    ensures Tags(Register(index, inbound)) == Tags(index) + {inbound.tag}
  {
    RegisterAdds(index, inbound);
  }

  lemma ReadSynthetic(cfg: Config, index: Index, child: Inbound, parent: Inbound)
    requires !Marked(child.tag) && child.protocol != Unsupported && parent.port.Some?
    requires Read(cfg, index, MakeFallbackInbound(child, parent)).Ok?
    ensures var made := MakeFallbackInbound(child, parent);
            Read(cfg, index, made).value == if made.tag in cfg.exclude then index else Register(index, made)
  {
    SyntheticMark(child.tag, parent.tag);
  }

  /** The tag one fallback adds. */
  function NewTag(cfg: Config, child: Inbound, parent: Inbound): set<string> {
    var tag := Synthetic(child.tag, parent.tag);
    if tag in cfg.exclude then {} else {tag}
  }

  function NewTags(cfg: Config, child: Inbound, fallbacks: seq<Inbound>): set<string> {
    if fallbacks == [] then {} else NewTag(cfg, child, fallbacks[0]) + NewTags(cfg, child, fallbacks[1..])
  }

  lemma {:induction false} NewTagsMean(cfg: Config, child: Inbound, fallbacks: seq<Inbound>, tag: string)
    ensures tag in NewTags(cfg, child, fallbacks) <==>
            tag !in cfg.exclude && exists p <- fallbacks :: tag == Synthetic(child.tag, p.tag)
  {
    if fallbacks != [] {
      NewTagsMean(cfg, child, fallbacks[1..], tag);
      assert forall p :: p in fallbacks <==> p == fallbacks[0] || p in fallbacks[1..];
    }
  }

  /** The synthetic inbound of one fallback. */
  lemma MadeInboundAdds(cfg: Config, index: Index, inbounds: seq<Inbound>, child: Inbound, parent: Inbound)
    requires Sound(cfg, inbounds, index) && child in inbounds && Expands(cfg, child, parent) && parent.port.Some?
    requires Read(cfg, index, MakeFallbackInbound(child, parent)).Ok?
    ensures var next := Read(cfg, index, MakeFallbackInbound(child, parent)).value;
            Sound(cfg, inbounds, next) && Tags(next) == Tags(index) + NewTag(cfg, child, parent)
  {
    var made := MakeFallbackInbound(child, parent);
    ReadSynthetic(cfg, index, child, parent);
    assert JustifiedEntry(cfg, inbounds, SettingsOf(made));
    RegisterKeepsSound(cfg, inbounds, index, made);
  }

  lemma ExpandOne(cfg: Config, index: Index, child: Inbound, fallbacks: seq<Inbound>)
    requires fallbacks != [] && !Marked(child.tag) && Expand(cfg, index, child, fallbacks).Ok?
    ensures var parent, rest := fallbacks[0], fallbacks[1..];
            if Synthetic(child.tag, parent.tag) in index.byTag then
              Expand(cfg, index, child, fallbacks) == Expand(cfg, index, child, rest)
            else
              && parent.port.Some? && Read(cfg, index, MakeFallbackInbound(child, parent)).Ok?
              && Expand(cfg, index, child, fallbacks) ==
                 Expand(cfg, Read(cfg, index, MakeFallbackInbound(child, parent)).value, child, rest)
  {
  }

  /** Expanding adds the synthetic tags that are not excluded, and nothing else. */
  lemma {:induction false} ExpandAdds(cfg: Config, index: Index, inbounds: seq<Inbound>, child: Inbound,
                                      fallbacks: seq<Inbound>)
    requires Sound(cfg, inbounds, index) && child in inbounds && !Marked(child.tag)
    requires forall p <- fallbacks :: Expands(cfg, child, p)
    requires Expand(cfg, index, child, fallbacks).Ok?
    ensures var next := Expand(cfg, index, child, fallbacks).value;
            Sound(cfg, inbounds, next) && Tags(next) == Tags(index) + NewTags(cfg, child, fallbacks)
    decreases |fallbacks|
  {
    if fallbacks != [] {
      var parent, rest := fallbacks[0], fallbacks[1..];
      assert parent in fallbacks && forall p <- rest :: p in fallbacks;
      ExpandOne(cfg, index, child, fallbacks);
      if Synthetic(child.tag, parent.tag) in index.byTag {
        ExpandAdds(cfg, index, inbounds, child, rest);
        assert NewTag(cfg, child, parent) <= Tags(index);
      } else {
        MadeInboundAdds(cfg, index, inbounds, child, parent);
        ExpandAdds(cfg, Read(cfg, index, MakeFallbackInbound(child, parent)).value, inbounds, child, rest);
      }
    }
  }

  /** The fallbacks an inbound is expanded for are its matching parents, unless it has fallbacks itself. */
  lemma FallbacksAreParents(cfg: Config, inbound: Inbound)
    requires Readable(cfg, inbound) && inbound.stream.Some? && !Marked(inbound.tag) && PortSettings(cfg, inbound).Ok?
    ensures forall p :: p in PortSettings(cfg, inbound).value <==> Expands(cfg, inbound, p)
    ensures NewTags(cfg, inbound, PortSettings(cfg, inbound).value) == SyntheticTagsOf(cfg, inbound)
  {
    var fallbacks := PortSettings(cfg, inbound).value;
    forall p ensures p in fallbacks <==> Expands(cfg, inbound, p) { FindFallbackInboundMeans(cfg.parents, inbound, p); }
    forall tag ensures tag in NewTags(cfg, inbound, fallbacks) <==> tag in SyntheticTagsOf(cfg, inbound) {
      NewTagsMean(cfg, inbound, fallbacks, tag);
    }
  }

  lemma ReadStreamIs(cfg: Config, index: Index, inbound: Inbound)
    requires Readable(cfg, inbound) && inbound.stream.Some? && Read(cfg, index, inbound).Ok?
    ensures PortSettings(cfg, inbound).Ok? && (PortSettings(cfg, inbound).value != [] ==> !Marked(inbound.tag))
    ensures var expanded := Expand(cfg, index, inbound, PortSettings(cfg, inbound).value);
            expanded.Ok? && Read(cfg, index, inbound).value == Register(expanded.value, inbound)
  {
  }

  /** An inbound with stream settings, and what its fallbacks added before it. */
  lemma ReadStreamAdds(cfg: Config, index: Index, inbounds: seq<Inbound>, inbound: Inbound)
    requires Sound(cfg, inbounds, index) && inbound in inbounds && !Marked(inbound.tag)
    requires Readable(cfg, inbound) && inbound.stream.Some? && Read(cfg, index, inbound).Ok?
    ensures var next := Read(cfg, index, inbound).value;
            Sound(cfg, inbounds, next) && Tags(next) == Tags(index) + {inbound.tag} + SyntheticTagsOf(cfg, inbound)
  {
    ReadStreamIs(cfg, index, inbound);
    FallbacksAreParents(cfg, inbound);
    var fallbacks := PortSettings(cfg, inbound).value;
    ExpandAdds(cfg, index, inbounds, inbound, fallbacks);
    assert JustifiedEntry(cfg, inbounds, SettingsOf(inbound));
    RegisterKeepsSound(cfg, inbounds, Expand(cfg, index, inbound, fallbacks).value, inbound);
  }

  lemma ReadAdds(cfg: Config, index: Index, inbounds: seq<Inbound>, inbound: Inbound)
    requires Sound(cfg, inbounds, index) && inbound in inbounds && !Marked(inbound.tag)
    requires Read(cfg, index, inbound).Ok?
    ensures var next := Read(cfg, index, inbound).value;
            Sound(cfg, inbounds, next) &&
              Tags(next) == Tags(index) + OwnTag(cfg, inbound) + SyntheticTagsOf(cfg, inbound)
  {
    if Readable(cfg, inbound) && inbound.stream.Some? {
      ReadStreamAdds(cfg, index, inbounds, inbound);
    } else {
      assert SyntheticTagsOf(cfg, inbound) == {};
      if Readable(cfg, inbound) {
        assert JustifiedEntry(cfg, inbounds, SettingsOf(inbound));
        RegisterKeepsSound(cfg, inbounds, index, inbound);
      }
    }
  }

  /** What a list of inbounds is expected to register. */
  function ExpectedTags(cfg: Config, inbounds: seq<Inbound>): set<string>
    decreases inbounds
  {
    if inbounds == [] then {}
    else OwnTag(cfg, inbounds[0]) + SyntheticTagsOf(cfg, inbounds[0]) + ExpectedTags(cfg, inbounds[1..])
  }

  lemma ReadAllOne(cfg: Config, index: Index, inbounds: seq<Inbound>)
    requires inbounds != [] && ReadAll(cfg, index, inbounds).Ok?
    ensures Read(cfg, index, inbounds[0]).Ok?
    ensures ReadAll(cfg, index, inbounds) == ReadAll(cfg, Read(cfg, index, inbounds[0]).value, inbounds[1..])
  {
  }

  lemma {:induction false} ReadAllAdds(cfg: Config, index: Index, inbounds: seq<Inbound>, rest: seq<Inbound>)
    requires Sound(cfg, inbounds, index)
    requires forall inbound <- rest :: inbound in inbounds && !Marked(inbound.tag)
    requires ReadAll(cfg, index, rest).Ok?
    ensures var next := ReadAll(cfg, index, rest).value;
            Sound(cfg, inbounds, next) && Tags(next) == Tags(index) + ExpectedTags(cfg, rest)
    decreases rest
  {
    if rest != [] {
      var first, others := rest[0], rest[1..];
      assert first in rest && forall inbound <- others :: inbound in rest;
      ReadAllOne(cfg, index, rest);
      ReadAdds(cfg, index, inbounds, first);
      ReadAllAdds(cfg, Read(cfg, index, first).value, inbounds, others);
      assert ExpectedTags(cfg, rest) == OwnTag(cfg, first) + SyntheticTagsOf(cfg, first) + ExpectedTags(cfg, others);
    }
  }

  /** The inbound has no fallbacks and the parent has one to it. */
  predicate IsBehind(c: Inbound, p: Inbound) {
    c.dests == [] && PointsTo(p, c)
  }

  predicate Included(cfg: Config, c: Inbound) {
    c.protocol != Unsupported && c.tag !in cfg.exclude
  }

  /** A tag that is to be registered: a real one, or one made of an inbound with stream settings and a parent
      it is behind. */
  ghost predicate ToRegister(cfg: Config, inbounds: seq<Inbound>, tag: string) {
    || (exists c <- inbounds :: Included(cfg, c) && c.tag == tag)
    || (exists c <- inbounds, p <- cfg.parents ::
          Included(cfg, c) && c.stream.Some? && IsBehind(c, p) && tag == c.tag + "<=>" + p.tag && tag !in cfg.exclude)
  }

  lemma ExpandsIsBehind(cfg: Config, c: Inbound, p: Inbound)
    requires !Marked(c.tag)
    ensures Expands(cfg, c, p) <==> Included(cfg, c) && c.stream.Some? && p in cfg.parents && IsBehind(c, p)
    ensures Synthetic(c.tag, p.tag) == c.tag + "<=>" + p.tag
  {
    FindFallbackInboundMeans(cfg.parents, c, p);
  }

  lemma ExpectedOfOne(cfg: Config, c: Inbound, tag: string)
    requires !Marked(c.tag)
    ensures tag in OwnTag(cfg, c) + SyntheticTagsOf(cfg, c) <==> ToRegister(cfg, [c], tag)
  {
    forall p ensures Expands(cfg, c, p) <==>
                     Included(cfg, c) && c.stream.Some? && p in cfg.parents && IsBehind(c, p)
    {
      ExpandsIsBehind(cfg, c, p);
    }
    if tag in SyntheticTagsOf(cfg, c) {
      var p :| p in cfg.parents && Expands(cfg, c, p) && tag == Synthetic(c.tag, p.tag);
      ExpandsIsBehind(cfg, c, p);
    }
    if p :| p in cfg.parents && Included(cfg, c) && c.stream.Some? && IsBehind(c, p) &&
            tag == c.tag + "<=>" + p.tag && tag !in cfg.exclude
    {
      ExpandsIsBehind(cfg, c, p);
    }
  }

  lemma ToRegisterSplits(cfg: Config, a: seq<Inbound>, b: seq<Inbound>, tag: string)
    ensures ToRegister(cfg, a + b, tag) <==> ToRegister(cfg, a, tag) || ToRegister(cfg, b, tag)
  {
  }

  lemma {:induction false} ExpectedTagsMean(cfg: Config, inbounds: seq<Inbound>, tag: string)
    requires forall inbound <- inbounds :: !Marked(inbound.tag)
    ensures tag in ExpectedTags(cfg, inbounds) <==> ToRegister(cfg, inbounds, tag)
    decreases inbounds
  {
    if inbounds != [] {
      assert inbounds[0] in inbounds && forall c <- inbounds[1..] :: c in inbounds;
      ExpectedTagsMean(cfg, inbounds[1..], tag);
      ExpectedOfOne(cfg, inbounds[0], tag);
      assert inbounds == [inbounds[0]] + inbounds[1..];
      ToRegisterSplits(cfg, [inbounds[0]], inbounds[1..], tag);
    }
  }

  /** A successful resolve registers exactly the real tags that are supported and not excluded, and the
      synthetic tags of their matching parents that are not excluded: each once, in the list and in the
      index, and with the settings of the inbound it stands for. */
  lemma ResolveIsExact(cfg: Config)
    requires (forall inbound <- cfg.inbounds :: !Marked(inbound.tag)) &&
             ReadAll(cfg, Index([], map[]), cfg.inbounds).Ok?
    ensures var index := ReadAll(cfg, Index([], map[]), cfg.inbounds).value;
            && WellFormed(index) && Justified(cfg, cfg.inbounds, index)
            && forall tag :: tag in index.tags <==> ToRegister(cfg, cfg.inbounds, tag)
  {
    ReadAllAdds(cfg, Index([], map[]), cfg.inbounds, cfg.inbounds);
    var index := ReadAll(cfg, Index([], map[]), cfg.inbounds).value;
    forall tag ensures tag in index.tags <==> ToRegister(cfg, cfg.inbounds, tag) {
      ExpectedTagsMean(cfg, cfg.inbounds, tag);
      assert tag in index.tags <==> tag in Tags(index);
    }
  }

  predicate UniqueTags(inbounds: seq<Inbound>) {
    forall a <- inbounds, b <- inbounds :: a.tag == b.tag ==> a == b
  }

  /** What the transport security of an inbound shows as. */
  function Shown(stream: Option<Security>): Security {
    match stream
    case Some(Tls) => Tls
    case Some(Reality) => Reality
    case _ => NoSecurity
  }

  /** Under its own tag an inbound is registered with its own protocol, port and security. */
  ghost predicate OwnEntry(byTag: map<string, Settings>, c: Inbound) {
    c.tag in byTag ==> byTag[c.tag] == Settings(c.tag, c.protocol, c.port, Shown(c.stream))
  }

  /** Under its synthetic tag it is registered with its own protocol behind the parent's port and security. */
  ghost predicate EntryBehind(byTag: map<string, Settings>, c: Inbound, p: Inbound) {
    var tag := c.tag + "<=>" + p.tag;
    tag in byTag ==> p.port.Some? && byTag[tag] == Settings(tag, c.protocol, p.port, Shown(p.stream))
  }

  /** With unique tags, every entry is that of the one inbound its tag names; a synthetic tag's is the child
      behind the port and security of the parent. */
  lemma EntriesAreDetermined(cfg: Config, index: Index, c: Inbound, p: Inbound)
    requires (forall inbound <- cfg.inbounds :: !Marked(inbound.tag)) && UniqueTags(cfg.inbounds) &&
             UniqueTags(cfg.parents)
    requires Justified(cfg, cfg.inbounds, index) && c in cfg.inbounds && p in cfg.parents
    ensures OwnEntry(index.byTag, c) && EntryBehind(index.byTag, c, p)
  {
    if c.tag in index.byTag { OwnEntryIsDetermined(cfg, index, c); }
    if Synthetic(c.tag, p.tag) in index.byTag {
      var s := index.byTag[Synthetic(c.tag, p.tag)];
      assert JustifiedEntry(cfg, cfg.inbounds, s);
      if child :| child in cfg.inbounds && s == SettingsOf(child) {
        SyntheticIsUnambiguous(c.tag, p.tag, child.tag, "");
      }
      var child, parent :| child in cfg.inbounds && parent in cfg.parents && Expands(cfg, child, parent)
                           && parent.port.Some? && s == SettingsOf(MakeFallbackInbound(child, parent));
      SyntheticIsUnambiguous(c.tag, p.tag, child.tag, parent.tag);
    }
  }

  lemma OwnEntryIsDetermined(cfg: Config, index: Index, c: Inbound)
    requires (forall inbound <- cfg.inbounds :: !Marked(inbound.tag)) && UniqueTags(cfg.inbounds)
    requires Justified(cfg, cfg.inbounds, index) && c in cfg.inbounds && c.tag in index.byTag
    ensures OwnEntry(index.byTag, c)
  {
    var s := index.byTag[c.tag];
    assert JustifiedEntry(cfg, cfg.inbounds, s);
    if child, parent :| child in cfg.inbounds && parent in cfg.parents && Expands(cfg, child, parent)
                        && parent.port.Some? && s == SettingsOf(MakeFallbackInbound(child, parent)) {
      SyntheticIsUnambiguous(child.tag, parent.tag, c.tag, "");
    }
  }

  // ----- In which order -----

  /** Tags appended one by one, each unless it is there. */
  function AppendNew(tags: seq<string>, more: seq<string>): seq<string>
    decreases |more|
  {
    if more == [] then tags else AppendNew(if more[0] in tags then tags else tags + [more[0]], more[1..])
  }

  lemma {:induction false} AppendNewConcat(tags: seq<string>, a: seq<string>, b: seq<string>)
    ensures AppendNew(tags, a + b) == AppendNew(AppendNew(tags, a), b)
    decreases |a|
  {
    if a == [] {
      assert a + b == b;
    } else {
      assert (a + b)[1..] == a[1..] + b;
      AppendNewConcat(if a[0] in tags then tags else tags + [a[0]], a[1..], b);
    }
  }

  function SyntheticList(cfg: Config, c: Inbound, parents: seq<Inbound>): seq<string> {
    if parents == [] then []
    else
      var tag := c.tag + "<=>" + parents[0].tag;
      (if tag in cfg.exclude then [] else [tag]) + SyntheticList(cfg, c, parents[1..])
  }

  /** What an inbound registers: its synthetic tags, parent by parent, and then its own. */
  function ListOf(cfg: Config, c: Inbound): seq<string> {
    if !Included(cfg, c) then []
    else if c.stream == None || c.dests != [] then [c.tag]
    else SyntheticList(cfg, c, FindFallbackInbound(cfg.parents, c)) + [c.tag]
  }

  lemma OneAppended(index: Index, inbound: Inbound)
    ensures Register(index, inbound).tags == AppendNew(index.tags, [inbound.tag])
  {
    var tags := if inbound.tag in index.tags then index.tags else index.tags + [inbound.tag];
    assert AppendNew(tags, []) == tags && [inbound.tag][1..] == [];
  }

  lemma {:induction false} ExpandAppends(cfg: Config, index: Index, inbounds: seq<Inbound>, c: Inbound,
                                         fallbacks: seq<Inbound>)
    requires Sound(cfg, inbounds, index) && c in inbounds && !Marked(c.tag)
    requires (forall p <- fallbacks :: Expands(cfg, c, p)) && Expand(cfg, index, c, fallbacks).Ok?
    ensures Expand(cfg, index, c, fallbacks).value.tags == AppendNew(index.tags, SyntheticList(cfg, c, fallbacks))
    decreases |fallbacks|
  {
    if fallbacks != [] {
      var p, rest := fallbacks[0], fallbacks[1..];
      var tag := c.tag + "<=>" + p.tag;
      assert p in fallbacks && forall q <- rest :: q in fallbacks;
      ExpandsIsBehind(cfg, c, p);
      ExpandOne(cfg, index, c, fallbacks);
      var next := if tag in index.byTag then index else Read(cfg, index, MakeFallbackInbound(c, p)).value;
      assert tag in index.tags <==> tag in Tags(index);
      var first := if tag in cfg.exclude then [] else [tag];
      if tag !in index.byTag {
        MadeInboundAdds(cfg, index, inbounds, c, p);
        ReadSynthetic(cfg, index, c, p);
        OneAppended(index, MakeFallbackInbound(c, p));
      }
      assert [tag][1..] == [];
      assert next.tags == AppendNew(index.tags, first);
      ExpandAppends(cfg, next, inbounds, c, rest);
      AppendNewConcat(index.tags, first, SyntheticList(cfg, c, rest));
    }
  }

  lemma ReadAppends(cfg: Config, index: Index, inbounds: seq<Inbound>, c: Inbound)
    requires Sound(cfg, inbounds, index) && c in inbounds && !Marked(c.tag) && Read(cfg, index, c).Ok?
    ensures Read(cfg, index, c).value.tags == AppendNew(index.tags, ListOf(cfg, c))
  {
    if Included(cfg, c) {
      if c.stream == None {
        OneAppended(index, c);
      } else {
        ReadStreamIs(cfg, index, c);
        FallbacksAreParents(cfg, c);
        var fallbacks := PortSettings(cfg, c).value;
        var expanded := Expand(cfg, index, c, fallbacks).value;
        ExpandAppends(cfg, index, inbounds, c, fallbacks);
        OneAppended(expanded, c);
        AppendNewConcat(index.tags, SyntheticList(cfg, c, fallbacks), [c.tag]);
        assert SyntheticList(cfg, c, []) + [c.tag] == [c.tag];
        if cfg.parents == [] { assert FindFallbackInbound(cfg.parents, c) == []; }
      }
    }
  }

  function ListOfAll(cfg: Config, inbounds: seq<Inbound>): seq<string>
    decreases inbounds
  {
    if inbounds == [] then [] else ListOf(cfg, inbounds[0]) + ListOfAll(cfg, inbounds[1..])
  }

  /** The list of tags is in the order of the inbounds, each behind its synthetic tags. */
  lemma {:induction false} ReadAllAppends(cfg: Config, index: Index, inbounds: seq<Inbound>, rest: seq<Inbound>)
    requires Sound(cfg, inbounds, index)
    requires forall c <- rest :: c in inbounds && !Marked(c.tag)
    requires ReadAll(cfg, index, rest).Ok?
    ensures ReadAll(cfg, index, rest).value.tags == AppendNew(index.tags, ListOfAll(cfg, rest))
    decreases rest
  {
    if rest != [] {
      var c, others := rest[0], rest[1..];
      assert c in rest && forall x <- others :: x in rest;
      ReadAllOne(cfg, index, rest);
      ReadAdds(cfg, index, inbounds, c);
      ReadAppends(cfg, index, inbounds, c);
      ReadAllAppends(cfg, Read(cfg, index, c).value, inbounds, others);
      AppendNewConcat(index.tags, ListOf(cfg, c), ListOfAll(cfg, others));
    }
  }

  // ----- Which configurations load -----

  /** The security a protocol accepts. */
  predicate SecurityFits(protocol: Protocol, security: Security) {
    match protocol
    case Hysteria => security == Tls
    case Anytls => security == Tls || security == Reality
    case Tuic => security == Tls || security == Reality
    case Naive => security == Tls || security == Reality
    case _ => true
  }

  function SecurityOf(p: Inbound): Security {
    if p.stream == None then NoSecurity else p.stream.value
  }

  /** Nothing is wrong with putting the inbound behind the parent. */
  ghost predicate PairAcceptable(cfg: Config, c: Inbound, p: Inbound) {
    var tag := c.tag + "<=>" + p.tag;
    p.port.Some? && (tag !in cfg.exclude ==> SecurityFits(c.protocol, SecurityOf(p)) && !cfg.streamFails(tag))
  }

  predicate OnSocket(listen: Json) {
    listen.Str? && ("/" <= listen.s || "@" <= listen.s)
  }

  /** Nothing is wrong with the inbound, nor with putting it behind its parents, unless the tag was registered
      for an earlier one. */
  ghost predicate Acceptable(cfg: Config, earlier: seq<Inbound>, c: Inbound) {
    Included(cfg, c) ==>
      && !c.settingsError
      && (c.port.Some? || OnSocket(c.listen) || exists p <- cfg.parents :: IsBehind(c, p))
      && (c.stream.Some? ==>
            && SecurityFits(c.protocol, c.stream.value) && !cfg.streamFails(c.tag)
            && forall p <- cfg.parents ::
                 IsBehind(c, p) && !ToRegister(cfg, earlier, c.tag + "<=>" + p.tag) ==> PairAcceptable(cfg, c, p))
  }

  ghost predicate Registered(cfg: Config, index: Index, earlier: seq<Inbound>) {
    forall tag :: tag in Tags(index) <==> ToRegister(cfg, earlier, tag)
  }

  lemma MadeIsOk(cfg: Config, index: Index, c: Inbound, p: Inbound)
    requires Included(cfg, c) && !c.settingsError && !Marked(c.tag) && p.port.Some?
    ensures Read(cfg, index, MakeFallbackInbound(c, p)).Ok? <==> PairAcceptable(cfg, c, p)
  {
    SyntheticMark(c.tag, p.tag);
    var made := MakeFallbackInbound(c, p);
    assert PortSettings(cfg, made) == Ok([]);
    assert NeedsTlsError(made) <==> !SecurityFits(c.protocol, SecurityOf(p));
  }

  ghost predicate PairsAcceptable(cfg: Config, index: Index, c: Inbound, fallbacks: seq<Inbound>) {
    forall p <- fallbacks :: Synthetic(c.tag, p.tag) !in index.byTag ==> PairAcceptable(cfg, c, p)
  }

  lemma {:induction false} ExpandIsOk(cfg: Config, index: Index, inbounds: seq<Inbound>, c: Inbound,
                                      fallbacks: seq<Inbound>)
    requires Sound(cfg, inbounds, index) && c in inbounds && !Marked(c.tag) && !c.settingsError
    requires UniqueTags(cfg.parents) && forall p <- fallbacks :: Expands(cfg, c, p)
    ensures Expand(cfg, index, c, fallbacks).Ok? <==> PairsAcceptable(cfg, index, c, fallbacks)
    decreases |fallbacks|
  {
    if fallbacks != [] {
      var p, rest := fallbacks[0], fallbacks[1..];
      assert p in fallbacks && forall q :: q in fallbacks <==> q == p || q in rest;
      assert Expands(cfg, c, p);
      if Synthetic(c.tag, p.tag) in index.byTag {
        ExpandIsOk(cfg, index, inbounds, c, rest);
      } else if p.port.Some? {
        MadeIsOk(cfg, index, c, p);
        var made := Read(cfg, index, MakeFallbackInbound(c, p));
        if made.Ok? {
          MadeInboundAdds(cfg, index, inbounds, c, p);
          ExpandIsOk(cfg, made.value, inbounds, c, rest);
          SkippedPairs(cfg, index, made.value, c, p, rest);
        }
      }
    }
  }

  lemma SkippedPairs(cfg: Config, index: Index, next: Index, c: Inbound, p: Inbound, rest: seq<Inbound>)
    requires WellFormed(index) && WellFormed(next) && Tags(next) == Tags(index) + NewTag(cfg, c, p)
    requires UniqueTags(cfg.parents) && p in cfg.parents && (forall q <- rest :: q in cfg.parents) && !Marked(c.tag)
    requires PairAcceptable(cfg, c, p)
    ensures PairsAcceptable(cfg, next, c, rest) <==> PairsAcceptable(cfg, index, c, rest)
  {
    forall q | q in rest && Synthetic(c.tag, q.tag) in NewTag(cfg, c, p) ensures q == p {
      SyntheticIsUnambiguous(c.tag, p.tag, c.tag, q.tag);
    }
  }

  lemma PortIsOk(cfg: Config, c: Inbound)
    requires !Marked(c.tag)
    ensures PortSettings(cfg, c).Ok? <==>
            c.port.Some? || OnSocket(c.listen) || exists p <- cfg.parents :: IsBehind(c, p)
  {
    var found := FindFallbackInbound(cfg.parents, c);
    forall p ensures p in found <==> p in cfg.parents && PointsTo(p, c) { FindFallbackInboundMeans(cfg.parents, c, p); }
    if found != [] { assert found[0] in found; }
  }

  /** ... when the inbound has stream settings and nothing else is wrong with it. */
  lemma StreamIsOk(cfg: Config, index: Index, inbounds: seq<Inbound>, earlier: seq<Inbound>, c: Inbound)
    requires Sound(cfg, inbounds, index) && c in inbounds && !Marked(c.tag) && UniqueTags(cfg.parents)
    requires Registered(cfg, index, earlier) && Included(cfg, c) && c.stream.Some? && !c.settingsError
    requires PortSettings(cfg, c).Ok?
    ensures Expand(cfg, index, c, PortSettings(cfg, c).value).Ok? <==>
            forall p <- cfg.parents ::
              IsBehind(c, p) && !ToRegister(cfg, earlier, c.tag + "<=>" + p.tag) ==> PairAcceptable(cfg, c, p)
  {
    var fallbacks := PortSettings(cfg, c).value;
    FallbacksAreParents(cfg, c);
    forall p ensures p in fallbacks <==> p in cfg.parents && IsBehind(c, p) { ExpandsIsBehind(cfg, c, p); }
    ExpandIsOk(cfg, index, inbounds, c, fallbacks);
    forall p: Inbound ensures Synthetic(c.tag, p.tag) == c.tag + "<=>" + p.tag { ExpandsIsBehind(cfg, c, p); }
  }

  lemma ReadIsOk(cfg: Config, index: Index, inbounds: seq<Inbound>, earlier: seq<Inbound>, c: Inbound)
    requires Sound(cfg, inbounds, index) && c in inbounds && !Marked(c.tag) && UniqueTags(cfg.parents)
    requires Registered(cfg, index, earlier)
    ensures Read(cfg, index, c).Ok? <==> Acceptable(cfg, earlier, c)
  {
    if Included(cfg, c) {
      PortIsOk(cfg, c);
      if PortSettings(cfg, c).Ok? && !c.settingsError && c.stream.Some? {
        StreamIsOk(cfg, index, inbounds, earlier, c);
        assert NeedsTlsError(c) <==> !SecurityFits(c.protocol, c.stream.value);
      }
    }
  }

  /** Every inbound from position n on is acceptable where it stands. */
  ghost predicate AllAcceptable(cfg: Config, n: nat) {
    forall k :: n <= k < |cfg.inbounds| ==> Acceptable(cfg, cfg.inbounds[..k], cfg.inbounds[k])
  }

  lemma RegisterOneMore(cfg: Config, n: nat, index: Index, next: Index)
    requires n < |cfg.inbounds| && Registered(cfg, index, cfg.inbounds[..n]) && !Marked(cfg.inbounds[n].tag)
    requires var c := cfg.inbounds[n]; Tags(next) == Tags(index) + OwnTag(cfg, c) + SyntheticTagsOf(cfg, c)
    ensures Registered(cfg, next, cfg.inbounds[..n + 1])
  {
    var c := cfg.inbounds[n];
    forall tag ensures tag in Tags(next) <==> ToRegister(cfg, cfg.inbounds[..n + 1], tag) {
      ExpectedOfOne(cfg, c, tag);
      assert cfg.inbounds[..n + 1] == cfg.inbounds[..n] + [c];
      ToRegisterSplits(cfg, cfg.inbounds[..n], [c], tag);
    }
  }

  lemma {:induction false} RestLoadsExactly(cfg: Config, n: nat, index: Index)
    requires (forall inbound <- cfg.inbounds :: !Marked(inbound.tag)) && UniqueTags(cfg.parents)
    requires n <= |cfg.inbounds| && Sound(cfg, cfg.inbounds, index) && Registered(cfg, index, cfg.inbounds[..n])
    ensures ReadAll(cfg, index, cfg.inbounds[n..]).Ok? <==> AllAcceptable(cfg, n)
    decreases |cfg.inbounds| - n
  {
    if n < |cfg.inbounds| {
      var c, rest := cfg.inbounds[n], cfg.inbounds[n..];
      assert rest[0] == c && rest[1..] == cfg.inbounds[n + 1..];
      ReadIsOk(cfg, index, cfg.inbounds, cfg.inbounds[..n], c);
      if Read(cfg, index, c).Ok? {
        var next := Read(cfg, index, c).value;
        ReadAdds(cfg, index, cfg.inbounds, c);
        RegisterOneMore(cfg, n, index, next);
        RestLoadsExactly(cfg, n + 1, next);
      }
    }
  }

  /** Exactly the configurations whose every inbound is acceptable load. */
  lemma LoadsExactly(cfg: Config)
    requires (forall inbound <- cfg.inbounds :: !Marked(inbound.tag)) && UniqueTags(cfg.parents)
    ensures ReadAll(cfg, Index([], map[]), cfg.inbounds).Ok? <==> AllAcceptable(cfg, 0)
  {
    assert cfg.inbounds[0..] == cfg.inbounds;
    RestLoadsExactly(cfg, 0, Index([], map[]));
  }

  // ----- What an error says -----

  /** What is wrong with an inbound when reading it raises this error. */
  ghost predicate Cause(cfg: Config, c: Inbound, error: Error) {
    match error
    case NoPort => c.port == None && !OnSocket(c.listen) && forall p <- cfg.parents :: !IsBehind(c, p)
    case BadSettings => c.settingsError
    case NeedsTls =>
      c.stream.Some? && (!SecurityFits(c.protocol, c.stream.value) ||
                         exists p <- cfg.parents :: IsBehind(c, p) && !SecurityFits(c.protocol, SecurityOf(p)))
    case FallbackWithoutPort => exists p <- cfg.parents :: IsBehind(c, p) && p.port == None
    case BadStream =>
      cfg.streamFails(c.tag) || exists p <- cfg.parents :: IsBehind(c, p) && cfg.streamFails(c.tag + "<=>" + p.tag)
    case _ => false
  }

  lemma MadeErrorHasCause(cfg: Config, index: Index, c: Inbound, p: Inbound)
    requires Included(cfg, c) && !Marked(c.tag) && !c.settingsError && c.stream.Some? && p.port.Some?
    requires p in cfg.parents && IsBehind(c, p) && Read(cfg, index, MakeFallbackInbound(c, p)).Err?
    ensures Cause(cfg, c, Read(cfg, index, MakeFallbackInbound(c, p)).error)
  {
    SyntheticMark(c.tag, p.tag);
    ExpandsIsBehind(cfg, c, p);
    var made := MakeFallbackInbound(c, p);
    assert PortSettings(cfg, made) == Ok([]);
    assert Expand(cfg, index, made, []) == Ok(index);
    assert NeedsTlsError(made) <==> !SecurityFits(c.protocol, SecurityOf(p));
    assert Read(cfg, index, made).error == if NeedsTlsError(made) then NeedsTls else BadStream;
  }

  lemma {:induction false} ExpandErrorHasCause(cfg: Config, index: Index, c: Inbound, fallbacks: seq<Inbound>)
    requires Included(cfg, c) && !Marked(c.tag) && !c.settingsError && c.stream.Some?
    requires (forall p <- fallbacks :: p in cfg.parents && IsBehind(c, p)) && Expand(cfg, index, c, fallbacks).Err?
    ensures Cause(cfg, c, Expand(cfg, index, c, fallbacks).error)
    decreases |fallbacks|
  {
    var p, rest := fallbacks[0], fallbacks[1..];
    assert p in fallbacks && forall q <- rest :: q in fallbacks;
    if Synthetic(c.tag, p.tag) in index.byTag {
      ExpandErrorHasCause(cfg, index, c, rest);
    } else if p.port.Some? {
      SyntheticMark(c.tag, p.tag);
      var made := Read(cfg, index, MakeFallbackInbound(c, p));
      if made.Ok? { ExpandErrorHasCause(cfg, made.value, c, rest); } else { MadeErrorHasCause(cfg, index, c, p); }
    }
  }

  lemma ReadErrorHasCause(cfg: Config, index: Index, c: Inbound)
    requires !Marked(c.tag) && Read(cfg, index, c).Err?
    ensures Included(cfg, c) && Cause(cfg, c, Read(cfg, index, c).error)
  {
    PortIsOk(cfg, c);
    if PortSettings(cfg, c).Ok? && !c.settingsError {
      assert NeedsTlsError(c) <==> !SecurityFits(c.protocol, c.stream.value);
      if !NeedsTlsError(c) {
        var fallbacks := PortSettings(cfg, c).value;
        forall p | p in fallbacks ensures p in cfg.parents && IsBehind(c, p) {
          FallbacksAreParents(cfg, c);
          ExpandsIsBehind(cfg, c, p);
        }
        if Expand(cfg, index, c, fallbacks).Err? { ExpandErrorHasCause(cfg, index, c, fallbacks); }
      }
    }
  }

  /** An error always has its cause in some inbound that is to be read. */
  lemma {:induction false} ErrorHasCause(cfg: Config, index: Index, inbounds: seq<Inbound>) returns (c: Inbound)
    requires (forall inbound <- inbounds :: !Marked(inbound.tag)) && ReadAll(cfg, index, inbounds).Err?
    ensures c in inbounds && Included(cfg, c) && Cause(cfg, c, ReadAll(cfg, index, inbounds).error)
    decreases inbounds
  {
    assert inbounds[0] in inbounds && forall x <- inbounds[1..] :: x in inbounds;
    if Read(cfg, index, inbounds[0]).Err? {
      c := inbounds[0];
      ReadErrorHasCause(cfg, index, c);
    } else {
      c := ErrorHasCause(cfg, Read(cfg, index, inbounds[0]).value, inbounds[1..]);
    }
  }
}
