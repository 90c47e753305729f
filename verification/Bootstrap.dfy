/**
 The concrete Mihomo tables, the whole classifier, and the zero-inbound
 bootstrap with its restoration: `config/mihomo.rs`, `config/clash.rs` and the
 document pipeline of `config/mod.rs`.
 */
module Bootstrap {
  import opened Wrappers
  import opened Yaml
  import opened Diff
  import opened Mihomo

  const PORTS: set<string> := {"port", "socks-port", "redir-port", "tproxy-port", "mixed-port"}

  const CONTROLLER: set<string> :=
    {"external-controller", "external-controller-pipe", "external-controller-unix", "secret"}

  const PATCH_FIELDS: set<string> := PORTS + {
    "tun", "tuic-server", "ss-config", "vmess-config", "tcptun-config", "udptun-config", "allow-lan",
    "skip-auth-prefixes", "lan-allowed-ips", "lan-disallowed-ips", "bind-address", "mode", "log-level",
    "ipv6", "sniffing", "tcp-concurrent", "find-process-mode", "interface-name"}

  const TUN_FIELDS: set<string> := {
    "enable", "device", "stack", "dns-hijack", "auto-route", "auto-detect-interface", "mtu", "gso",
    "gso-max-size", "inet6-address", "iproute2-table-index", "iproute2-rule-index", "auto-redirect",
    "auto-redirect-input-mark", "auto-redirect-output-mark", "auto-redirect-iproute2-fallback-rule-index",
    "loopback-address", "strict-route", "route-address", "route-address-set", "route-exclude-address",
    "route-exclude-address-set", "include-interface", "exclude-interface", "include-uid",
    "include-uid-range", "exclude-uid", "exclude-uid-range", "include-android-user", "include-package",
    "exclude-package", "include-mac-address", "exclude-mac-address", "endpoint-independent-nat",
    "udp-timeout", "icmp-timeout", "file-descriptor", "inet4-route-address", "inet6-route-address",
    "inet4-route-exclude-address", "inet6-route-exclude-address", "recvmsgx", "sendmsgx"}

  const TUIC_FIELDS: set<string> := {
    "enable", "listen", "token", "users", "certificate", "private-key", "congestion-controller",
    "max-idle-time", "authentication-timeout", "alpn", "max-udp-relay-packet-size", "cwnd", "bbr-profile"}

  const RELOAD_FIELDS: set<string> := {
    "proxies", "proxy-groups", "proxy-providers", "rule-providers", "providers", "rules", "hosts", "dns"}

  function MihomoSchema(typed: Mapping -> bool): Schema {
    Schema(PATCH_FIELDS, TUN_FIELDS, TUIC_FIELDS, RELOAD_FIELDS, typed)
  }

  /** What the proofs need to know about a field table. */
  ghost predicate Coherent(s: Schema) {
    && PORTS <= s.patch && TUN in s.patch && "enable" in s.tun
    && CONTROLLER !! s.patch && CONTROLLER !! s.reload && s.patch !! s.reload
  }

  lemma MihomoIsCoherent(typed: Mapping -> bool)
    ensures Coherent(MihomoSchema(typed))
  {
    assert TUN in PATCH_FIELDS;
    ControllerIsApart();
    ReloadIsApart();
  }

  lemma ControllerIsApart()
    ensures CONTROLLER !! PATCH_FIELDS && CONTROLLER !! RELOAD_FIELDS
  {
    forall k | k in CONTROLLER ensures k !in PATCH_FIELDS && k !in RELOAD_FIELDS { }
  }

  lemma ReloadIsApart()
    ensures RELOAD_FIELDS !! PATCH_FIELDS
  {
    forall k | k in RELOAD_FIELDS ensures k !in PATCH_FIELDS { }
  }

  // ----- the verdict of `classify_documents` ------------------------------

  /** For patchable differences the verdict is decided by the enable fields and the typed conversion. */
  lemma PatchVerdict(s: Schema, cur: Mapping, des: Mapping)
    requires AllPatchable(s, cur, des) && cur != des && DnsListen(cur) == DnsListen(des)
    ensures var doc := PatchDocument(s, cur, des);
            ClassifyDocuments(s, cur, des) ==
            if LacksEnable(doc, TUN) || LacksEnable(doc, TUIC) || !s.typed(doc) then Ok(Switch)
            else Ok(Patch(Convert(s, doc).value, Leaves(Map(Convert(s, doc).value))))
  {
    hide Changes, CollectRoots, PatchDocument;
    DiffEmptyIffEqual(cur, des);
    forall c | c in DiffDocs(cur, des) ensures c.to.Some? && PatchablePath(s, c.path) {
      ChangesAreParts(Some(Map(cur)), Some(Map(des)), c);
    }
    PatchableDocument(s, cur, des);
  }

  /** `classify_documents` has no error path on canonical documents. */
  lemma ClassifyNeverErrs(s: Schema, cur: Mapping, des: Mapping)
    ensures ClassifyDocuments(s, cur, des).Ok?
  {
    hide Changes, CollectRoots, PatchDocument, AllPatchable;
    if forall c :: c in DiffDocs(cur, des) ==> c.to.Some? && PatchablePath(s, c.path) {
      PatchableMeans(s, cur, des);
      PatchableDocument(s, cur, des);
    }
  }

  /** The changes of a diff are the places where the documents part, and the desired values there. */
  lemma ChangesCover(cur: Mapping, des: Mapping)
    ensures forall c :: c in DiffDocs(cur, des) ==>
              Parts(Some(Map(cur)), Some(Map(des)), c.path) && c.to == ValueAt(Some(Map(des)), c.path)
    ensures forall path :: Parts(Some(Map(cur)), Some(Map(des)), path) ==>
              Change(path, ValueAt(Some(Map(des)), path)) in DiffDocs(cur, des)
  {
    var a, b := Some(Map(cur)), Some(Map(des));
    hide Changes, Parts;
    forall c | c in DiffDocs(cur, des) ensures Parts(a, b, c.path) && c.to == ValueAt(b, c.path) {
      ChangesAreParts(a, b, c);
    }
    forall path | Parts(a, b, path) ensures Change(path, ValueAt(b, path)) in DiffDocs(cur, des) {
      ChangesAreParts(a, b, Change(path, ValueAt(b, path)));
    }
  }

  /** The documents part below the reloadable keys only, and `dns` neither came nor went as a whole. */
  ghost predicate PartsInReload(s: Schema, cur: Mapping, des: Mapping) {
    forall path :: Parts(Some(Map(cur)), Some(Map(des)), path) ==>
      path != [] && path[0] in s.reload && path != ["dns"]
  }

  lemma ReloadExact(s: Schema, cur: Mapping, des: Mapping)
    requires s.patch !! s.reload
    ensures ClassifyDocuments(s, cur, des) == Ok(Reload) <==>
            cur != des && DnsListen(cur) == DnsListen(des) && PartsInReload(s, cur, des)
  {
    hide Changes, Parts, CollectRoots, Convert, LacksEnable;
    DiffEmptyIffEqual(cur, des);
    ChangesCover(cur, des);
    DnsListenChanges(cur, des);
    if DnsListen(cur) == DnsListen(des) {
      assert forall c :: c in DiffDocs(cur, des) ==> !IsDnsListen(c.path);
      assert forall c :: c in DiffDocs(cur, des) ==>
               (ReloadablePath(s, c.path) <==> c.path != [] && c.path[0] in s.reload && c.path != ["dns"]);
      assert PartsInReload(s, cur, des) <==> forall c :: c in DiffDocs(cur, des) ==> ReloadablePath(s, c.path);
      if cur != des { assert DiffDocs(cur, des)[0] in DiffDocs(cur, des); }
    }
  }

  /** `dns.listen` shows in the diff exactly if it differs and no other kind of `dns` replaces the whole entry. */
  lemma DnsListenChanges(cur: Mapping, des: Mapping)
    ensures (exists c :: c in DiffDocs(cur, des) && IsDnsListen(c.path)) <==>
            && DnsListen(cur) != DnsListen(des)
            && ("dns" in cur ==> cur["dns"].Map?) && ("dns" in des ==> des["dns"].Map?)
  {
    var a, b := Some(Map(cur)), Some(Map(des));
    var x, y := Get(cur, "dns"), Get(des, "dns");
    if c :| c in DiffDocs(cur, des) && IsDnsListen(c.path) {
      ChangesAreParts(a, b, c);
      var rest := c.path[1..];
      assert Parts(x, y, rest) && rest[0] == "listen";
      assert Parts(Child(x, "listen"), Child(y, "listen"), rest[1..]);
    }
    if DnsListen(cur) != DnsListen(des) && ("dns" in cur ==> cur["dns"].Map?) && ("dns" in des ==> des["dns"].Map?) {
      var rest := UnequalParts(DnsListen(cur), DnsListen(des));
      PartsBelow(x, y, "listen", rest);
      PartsBelow(a, b, "dns", ["listen"] + rest);
      var path := ["dns"] + (["listen"] + rest);
      assert path[1] == "listen";
      ChangesAreParts(a, b, Change(path, ValueAt(b, path)));
    }
  }

  /**
   No change is a deletion, and each is a whole value of the patch table or lies
   below a patchable field of `tun` or `tuic-server`.
   */
  ghost predicate PartsInPatch(s: Schema, cur: Mapping, des: Mapping) {
    forall path :: Parts(Some(Map(cur)), Some(Map(des)), path) ==>
      && ValueAt(Some(Map(des)), path).Some? && path != [] && path[0] in s.patch
      && (path[0] == "tun" ==> |path| > 1 && path[1] in s.tun)
      && (path[0] == "tuic-server" ==> |path| > 1 && path[1] in s.tuic)
      && (path[0] != "tun" && path[0] != "tuic-server" ==> |path| == 1)
  }

  /** A changed `tun` or `tuic-server` still says whether it is enabled. */
  ghost predicate KeepsEnable(cur: Mapping, des: Mapping, root: string) {
    Get(cur, root) != Get(des, root) ==>
      var e := Child(Get(des, root), "enable");
      e.Some? && e.value.Bool?
  }

  lemma PatchExact(s: Schema, cur: Mapping, des: Mapping)
    requires "enable" in s.tun && "enable" in s.tuic
    ensures ClassifyDocuments(s, cur, des).Ok? && ClassifyDocuments(s, cur, des).value.Patch? <==>
            && cur != des && DnsListen(cur) == DnsListen(des) && PartsInPatch(s, cur, des)
            && KeepsEnable(cur, des, "tun") && KeepsEnable(cur, des, "tuic-server")
            && s.typed(PatchDocument(s, cur, des))
  {
    DiffEmptyIffEqual(cur, des);
    ChangesCover(cur, des);
    hide Changes, Parts, CollectRoots, BuildPatch;
    assert AllPatchable(s, cur, des) <==> PartsInPatch(s, cur, des);
    if cur != des && DnsListen(cur) == DnsListen(des) && AllPatchable(s, cur, des) {
      PatchVerdict(s, cur, des);
      EnablesKept(s, cur, des, TUN);
      EnablesKept(s, cur, des, TUIC);
    }
  }

  /** The patch document lacks an `enable` exactly if the changed desired entry does. */
  lemma EnablesKept(s: Schema, cur: Mapping, des: Mapping, root: string)
    requires AllPatchable(s, cur, des) && (root == TUN || root == TUIC) && "enable" in Allowed(s, root)
    ensures LacksEnable(PatchDocument(s, cur, des), root) <==>
            !KeepsEnable(cur, des, root)
  {
    if Get(cur, root) != Get(des, root) { RootShape(s, cur, des, root); }
  }

  /** A key outside the patch and reload tables, and `dns.listen`, survive every verdict but Switch. */
  lemma NonSwitchKeepsKey(s: Schema, cur: Mapping, des: Mapping, k: string)
    requires ClassifyDocuments(s, cur, des).Ok? && !ClassifyDocuments(s, cur, des).value.Switch?
    requires k !in s.patch && k !in s.reload
    ensures Get(cur, k) == Get(des, k)
  {
    ChangedRoots(cur, des, k);
  }

  /** Clearing a field to null is classified as a patch that does not clear it. */
  lemma NullingIsNotPatched(s: Schema)
    requires Coherent(s) && "ipv6" in s.patch && s.typed(map["ipv6" := Null])
    ensures var cur, des := map["ipv6" := Bool(true)], map["ipv6" := Null];
            && ClassifyDocuments(s, cur, des).Ok? && ClassifyDocuments(s, cur, des).value.Patch?
            && Merge(Map(cur), Map(ClassifyDocuments(s, cur, des).value.patch)) != Map(des)
  {
    var cur: Mapping, des: Mapping := map["ipv6" := Bool(true)], map["ipv6" := Null];
    assert cur["ipv6"] != des["ipv6"];
    forall path | Parts(Some(Map(cur)), Some(Map(des)), path)
      ensures path == ["ipv6"]
    {
      assert path == [path[0]] + path[1..];
      assert Parts(Some(Bool(true)), Some(Null), path[1..]);
    }
    var at := ["ipv6"];
    assert at[1..] == [];
    assert PatchDocument(s, cur, des) == des;
    PatchVerdict(s, cur, des);
    var patch := ClassifyDocuments(s, cur, des).value.patch;
    PatchReachesDesired(s, cur, des, patch, ClassifyDocuments(s, cur, des).value.expected);
    assert Parts(Some(Map(cur)), Some(Map(des)), at) && StructLevel(at);
  }

  // ----- the whole classifier ---------------------------------------------

  datatype CoreKind = MihomoCore | Meow | ClashRust | ClashPremium

  datatype InstanceSpec = InstanceSpec(
    kind: CoreKind, binary: string, version: Option<string>, features: seq<string>,
    workingDir: string, options: string, configPath: string)

  predicate ProcessSpecChanged(current: InstanceSpec, desired: InstanceSpec) {
    || current.kind != desired.kind || current.binary != desired.binary
    || current.version != desired.version || current.features != desired.features
    || current.workingDir != desired.workingDir || current.options != desired.options
  }

  function Classify(s: Schema, currentSource: Mapping, currentEffective: Mapping, currentSpec: InstanceSpec,
                    desiredSource: Mapping, desiredEffective: Mapping, desiredSpec: InstanceSpec)
    : Result<ConfigChange, Error>
  {
    if ProcessSpecChanged(currentSpec, desiredSpec) then Ok(Switch)
    else
      var sourceDiff := DiffDocs(currentSource, desiredSource);
      if desiredSpec.kind != MihomoCore then
        if sourceDiff == [] && DiffDocs(currentEffective, desiredEffective) == [] then Ok(Noop) else Ok(Switch)
      else if exists c :: c in sourceDiff && ((c.path != [] && c.path[0] in CONTROLLER) || IsDnsListen(c.path)) then
        Ok(Switch)
      else ClassifyDocuments(s, currentEffective, desiredEffective)
  }

  /** The sources differ in a controller key, or in `dns.listen` with `dns` a mapping or absent on both sides. */
  ghost predicate ControlPlaneChanged(cs: Mapping, ds: Mapping) {
    || Get(cs, "external-controller") != Get(ds, "external-controller")
    || Get(cs, "external-controller-pipe") != Get(ds, "external-controller-pipe")
    || Get(cs, "external-controller-unix") != Get(ds, "external-controller-unix")
    || Get(cs, "secret") != Get(ds, "secret")
    || (DnsListen(cs) != DnsListen(ds) && ("dns" in cs ==> cs["dns"].Map?) && ("dns" in ds ==> ds["dns"].Map?))
  }

  lemma ControlPlaneChanges(cs: Mapping, ds: Mapping)
    ensures (exists c :: c in DiffDocs(cs, ds) && ((c.path != [] && c.path[0] in CONTROLLER) || IsDnsListen(c.path)))
            <==> ControlPlaneChanged(cs, ds)
  {
    DnsListenChanges(cs, ds);
    forall k ensures k in Roots(DiffDocs(cs, ds)) <==> Get(cs, k) != Get(ds, k) { ChangedRoots(cs, ds, k); }
    hide Changes, DnsListen, IsDnsListen;
    assert ControlPlaneChanged(cs, ds) <==>
             || (exists k :: k in CONTROLLER && k in Roots(DiffDocs(cs, ds)))
             || exists c :: c in DiffDocs(cs, ds) && IsDnsListen(c.path);
  }

  /**
   The whole classifier, verdict by verdict. It gives anything but a switch only if
   the process spec is the same up to the configuration path; other cores than
   Mihomo then get a no-op for equal documents; and Mihomo gets what its effective
   documents call for unless the sources differ in the control plane.
   */
  lemma ClassifyExact(s: Schema, cs: Mapping, ce: Mapping, cspec: InstanceSpec,
                      ds: Mapping, de: Mapping, dspec: InstanceSpec)
    ensures var same := cspec.(configPath := dspec.configPath) == dspec;
            Classify(s, cs, ce, cspec, ds, de, dspec) ==
            if same && dspec.kind == MihomoCore && !ControlPlaneChanged(cs, ds) then ClassifyDocuments(s, ce, de)
            else if same && dspec.kind != MihomoCore && cs == ds && ce == de then Ok(Noop)
            else Ok(Switch)
  {
    DiffEmptyIffEqual(cs, ds);
    DiffEmptyIffEqual(ce, de);
    ControlPlaneChanges(cs, ds);
    hide ClassifyDocuments, Changes, ControlPlaneChanged;
  }

  /**
   Anything but a switch keeps the process spec, the four controller keys and
   `dns.listen`; a no-op means the effective documents are equal, for every kind.
   */
  lemma NonSwitchKeepsControlPlane(s: Schema, cs: Mapping, ce: Mapping, cspec: InstanceSpec,
                                   ds: Mapping, de: Mapping, dspec: InstanceSpec)
    requires Coherent(s)
    ensures Classify(s, cs, ce, cspec, ds, de, dspec).Ok?
    ensures var v := Classify(s, cs, ce, cspec, ds, de, dspec).value;
            && (!v.Switch? ==> !ProcessSpecChanged(cspec, dspec)
                               && (forall k :: k in CONTROLLER ==> Get(ce, k) == Get(de, k))
                               && DnsListen(ce) == DnsListen(de))
            && (v.Noop? ==> ce == de)
            && (cs == ds && ce == de && !ProcessSpecChanged(cspec, dspec) ==> v.Noop?)
  {
    ClassifyExact(s, cs, ce, cspec, ds, de, dspec);
    ClassifyNeverErrs(s, ce, de);
    NoopMeansEqual(s, ce, de);
    hide Classify;
    var v := Classify(s, cs, ce, cspec, ds, de, dspec).value;
    if !v.Switch? {
      forall k | k in CONTROLLER ensures Get(ce, k) == Get(de, k) {
        if v == ClassifyDocuments(s, ce, de).value { NonSwitchKeepsKey(s, ce, de, k); }
      }
    }
    hide DiffDocs;
  }

  lemma NoopMeansEqual(s: Schema, cur: Mapping, des: Mapping)
    ensures ClassifyDocuments(s, cur, des) == Ok(Noop) <==> cur == des
  {
    DiffEmptyIffEqual(cur, des);
  }

  // ----- zeroing listeners ------------------------------------------------

  predicate Zeroable(v: Doc) { IsI64(v) && v.n != 0 }

  predicate TunEnabled(v: Doc) { v.Map? && Get(v.m, "enable") == Some(Bool(true)) }

  function ZeroedValue(k: string, v: Doc): Doc {
    if k in PORTS && Zeroable(v) then Int(0)
    else if k == TUN && TunEnabled(v) then Map(v.m["enable" := Bool(false)])
    else v
  }

  function ZeroInbounds(document: Mapping): Mapping {
    map k | k in document :: ZeroedValue(k, document[k])
  }

  /** `zero_inbounds` as written: insert while looping over the port fields, then patch `tun` in place. */
  method ZeroInboundsInPlace(source: Mapping) returns (document: Mapping)
    ensures document == ZeroInbounds(source)
  {
    document := source;
    var fields := ["port", "socks-port", "redir-port", "tproxy-port", "mixed-port"];
    for i := 0 to |fields|
      invariant document.Keys == source.Keys
      invariant forall k :: k in source ==>
                  document[k] == if k in fields[..i] && Zeroable(source[k]) then Int(0) else source[k]
    {
      var key := fields[i];
      if key in document && Zeroable(document[key]) {
        document := document[key := Int(0)];
      }
    }
    assert fields[..|fields|] == fields;
    assert forall k :: k in fields <==> k in PORTS;
    if TUN in document && TunEnabled(document[TUN]) {
      document := document[TUN := Map(document[TUN].m["enable" := Bool(false)])];
    }
  }

  // ----- the effective document and its controller -------------------------

  /** `rewrite_managed_controller` on Unix. */
  function RewriteController(document: Mapping, endpoint: string): Mapping {
    (document - {"external-controller", "external-controller-pipe", "external-controller-unix"})
      ["external-controller-unix" := Str(endpoint)]
  }

  /** The document part of `prepare`; `endpoint` is present when local IPC was resolved. */
  function Prepared(source: Mapping, endpoint: Option<string>, zero: bool): Mapping {
    var document := if zero then ZeroInbounds(source) else source;
    if endpoint.Some? then RewriteController(document, endpoint.value) else document
  }

  datatype RawController = Unix(path: string) | Http(address: string)
  datatype ConfigInfo = ConfigInfo(controller: Option<RawController>, secret: Option<string>)

  function StrValue(document: Mapping, key: string): Option<string> {
    if key in document && document[key].Str? && document[key].s != "" then Some(document[key].s) else None
  }

  function InspectHttp(document: Mapping): ConfigInfo {
    var http := StrValue(document, "external-controller");
    ConfigInfo(if http.Some? then Some(Http(http.value)) else None, StrValue(document, "secret"))
  }

  function Inspect(document: Mapping): ConfigInfo {
    var local := StrValue(document, "external-controller-unix");
    if local.Some? then ConfigInfo(Some(Unix(local.value)), StrValue(document, "secret"))
    else InspectHttp(document)
  }

  function Controller(source: Mapping, endpoint: Option<string>, zero: bool): ConfigInfo {
    if endpoint.Some? then Inspect(Prepared(source, endpoint, zero)) else InspectHttp(Prepared(source, endpoint, zero))
  }

  /** With a managed endpoint the document exposes that endpoint and no other, and the core is reached there. */
  lemma OnlyManagedController(source: Mapping, endpoint: string, zero: bool)
    ensures var d := Prepared(source, Some(endpoint), zero);
            && Get(d, "external-controller-unix") == Some(Str(endpoint))
            && "external-controller" !in d && "external-controller-pipe" !in d
            && Get(d, "secret") == Get(source, "secret")
            && (endpoint != "" ==> Controller(source, Some(endpoint), zero).controller == Some(Unix(endpoint)))
            && (endpoint == "" ==> Controller(source, Some(endpoint), zero).controller == None)
            && Controller(source, Some(endpoint), zero).secret == StrValue(source, "secret")
  {
    assert "secret" !in PORTS && "secret" != TUN;
  }

  /** Without one the document is the source, and the core is reached over its own HTTP address, if it has one. */
  lemma OwnController(source: Mapping, zero: bool)
    ensures Prepared(source, None, false) == source
    ensures var c := Controller(source, None, zero).controller;
            Controller(source, None, zero).secret == StrValue(source, "secret") &&
            match Get(source, "external-controller")
            case Some(Str(address)) => c == if address == "" then None else Some(Http(address))
            case _ => c == None
  {
    assert "external-controller" !in PORTS && "external-controller" != TUN;
    assert "secret" !in PORTS && "secret" != TUN;
  }

  function RestorationPatch(s: Schema, bootstrap: Mapping, desired: Mapping)
    : Result<Option<(Mapping, seq<Leaf>)>, Error>
  {
    match ClassifyDocuments(s, bootstrap, desired)
    case Err(e) => Err(e)
    case Ok(Noop) => Ok(None)
    case Ok(Patch(patch, expected)) => Ok(Some((patch, expected)))
    case Ok(_) => Err(InvalidConfig)
  }

  lemma PreparedAt(source: Mapping, endpoint: Option<string>, k: string)
    ensures var full, boot := Prepared(source, endpoint, false), Prepared(source, endpoint, true);
            && full.Keys == boot.Keys
            && (k in full ==> boot[k] == ZeroedValue(k, full[k]))
            && (k in full && k !in CONTROLLER ==> k in source && full[k] == source[k])
  {
  }

  /** Every difference between the bootstrap and the full document is a zeroed listener. */
  lemma BootstrapDifference(s: Schema, source: Mapping, endpoint: Option<string>, path: seq<string>)
    requires Coherent(s)
    requires Parts(Some(Map(Prepared(source, endpoint, true))), Some(Map(Prepared(source, endpoint, false))), path)
    ensures PatchablePath(s, path)
    ensures var v := ValueAt(Some(Map(Prepared(source, endpoint, false))), path); v.Some? && v.value != Null
  {
    var full, boot := Prepared(source, endpoint, false), Prepared(source, endpoint, true);
    var k, rest := path[0], path[1..];
    PreparedAt(source, endpoint, k);
    assert Parts(Get(boot, k), Get(full, k), rest);
    assert boot[k] != full[k];
    if k in PORTS && Zeroable(full[k]) {
      assert rest == [];
    } else {
      assert boot[k] == Map(full[k].m["enable" := Bool(false)]);
      assert Parts(Child(Get(boot, k), rest[0]), Child(Get(full, k), rest[0]), rest[1..]);
      assert rest[0] == "enable" && rest[1..] == [];
      assert ValueAt(Some(Map(full)), path) == ValueAt(Get(full, k), rest) == Child(Get(full, k), rest[0]);
    }
  }

  /** The controllers of the bootstrap and of the full document are the same. */
  lemma SameController(source: Mapping, endpoint: Option<string>)
    ensures Controller(source, endpoint, true) == Controller(source, endpoint, false)
  {
    var full, boot := Prepared(source, endpoint, false), Prepared(source, endpoint, true);
    forall k | k in CONTROLLER ensures StrValue(boot, k) == StrValue(full, k) {
      PreparedAt(source, endpoint, k);
    }
  }

  /**
   Zeroing and restoring is the identity. The restoration patch fails only when
   its values do not fit the typed patch; otherwise merging it into the
   bootstrap document gives back the full one.
   */
  lemma RestorationIsIdentity(s: Schema, source: Mapping, endpoint: Option<string>)
    requires Coherent(s)
    ensures var full, boot := Prepared(source, endpoint, false), Prepared(source, endpoint, true);
            var r := RestorationPatch(s, boot, full);
            && (r.Ok? <==> boot == full || s.typed(PatchDocument(s, boot, full)))
            && (r.Ok? && r.value.None? <==> boot == full)
            && (r.Ok? && r.value.Some? ==> Merge(Map(boot), Map(r.value.value.0)) == Map(full))
  {
    var full, boot := Prepared(source, endpoint, false), Prepared(source, endpoint, true);
    hide Prepared, Parts, Coherent, DnsListen, LacksEnable, PatchDocument, ClassifyDocuments, Merge;
    hide AllPatchable, NoFieldBecomesNull;
    BootstrapPatchable(s, source, endpoint);
    NoopMeansEqual(s, boot, full);
    if boot != full {
      PatchVerdict(s, boot, full);
      RestorationEnables(s, source, endpoint);
      var v := ClassifyDocuments(s, boot, full).value;
      if v.Patch? { PatchReachesDesired(s, boot, full, v.patch, v.expected); }
    }
  }

  /** All the differences are patchable, and none clears a field. */
  lemma BootstrapPatchable(s: Schema, source: Mapping, endpoint: Option<string>)
    requires Coherent(s)
    ensures var full, boot := Prepared(source, endpoint, false), Prepared(source, endpoint, true);
            AllPatchable(s, boot, full) && NoFieldBecomesNull(boot, full) && DnsListen(boot) == DnsListen(full)
  {
    var full, boot := Prepared(source, endpoint, false), Prepared(source, endpoint, true);
    PreparedAt(source, endpoint, "dns");
    assert DnsListen(boot) == DnsListen(full);
    hide Prepared, Parts, Coherent, DnsListen, PatchablePath;
    forall path | Parts(Some(Map(boot)), Some(Map(full)), path)
      ensures ValueAt(Some(Map(full)), path).Some? && PatchablePath(s, path)
      ensures ValueAt(Some(Map(full)), path) != Some(Null)
    {
      BootstrapDifference(s, source, endpoint, path);
    }
  }

  /** The full document passes the projection of its own restoration patch. */
  lemma RestorationConfirms(s: Schema, source: Mapping, endpoint: Option<string>)
    requires Coherent(s)
    ensures var full, boot := Prepared(source, endpoint, false), Prepared(source, endpoint, true);
            var r := RestorationPatch(s, boot, full);
            r.Ok? && r.value.Some? ==>
              && r.value.value.0 != map[] && r.value.value.1 == Leaves(Map(r.value.value.0))
              && Verify(r.value.value.1, Map(full))
  {
    var full, boot := Prepared(source, endpoint, false), Prepared(source, endpoint, true);
    forall path | Parts(Some(Map(boot)), Some(Map(full)), path)
      ensures ValueAt(Some(Map(full)), path) != Some(Null)
    {
      BootstrapDifference(s, source, endpoint, path);
    }
    assert NoFieldBecomesNull(boot, full);
    hide Prepared, Parts, ClassifyDocuments, Verify, Leaves, NoFieldBecomesNull;
    var r := RestorationPatch(s, boot, full);
    if r.Ok? && r.value.Some? {
      DesiredPassesProjection(s, boot, full, r.value.value.0, r.value.value.1);
    }
  }

  lemma RestorationEnables(s: Schema, source: Mapping, endpoint: Option<string>)
    requires Coherent(s)
    ensures var doc := PatchDocument(s, Prepared(source, endpoint, true), Prepared(source, endpoint, false));
            !LacksEnable(doc, TUN) && !LacksEnable(doc, TUIC)
  {
    var full, boot := Prepared(source, endpoint, false), Prepared(source, endpoint, true);
    PreparedAt(source, endpoint, TUN);
    PreparedAt(source, endpoint, TUIC);
    var doc := PatchDocument(s, boot, full);
    if TUN in doc {
      assert TunEnabled(full[TUN]);
      assert doc[TUN] == Map(Filtered(full[TUN].m, s.tun));
    }
  }

  // ----- which sources may overlap ----------------------------------------

  datatype Block = DnsListens | InboundSurface

  predicate HasSuffix(s: string, t: string) { |t| <= |s| && s[|s| - |t|..] == t }

  predicate Contains(s: string, t: string) {
    |t| <= |s| && (s[..|t|] == t || (s != "" && Contains(s[1..], t)))
  }

  predicate InboundLike(key: string) {
    HasSuffix(key, "-port") || Contains(key, "listener") || Contains(key, "inbound") || Contains(key, "tunnel")
  }

  lemma {:induction false} ContainsAt(s: string, t: string, i: nat)
    requires i + |t| <= |s| && s[i..i + |t|] == t
    ensures Contains(s, t)
  {
    if i > 0 {
      assert s[1..][i - 1..i - 1 + |t|] == s[i..i + |t|];
      ContainsAt(s[1..], t, i - 1);
    }
  }

  lemma {:induction false} ContainedAt(s: string, t: string) returns (i: nat)
    requires Contains(s, t)
    ensures i + |t| <= |s| && s[i..i + |t|] == t
  {
    i := 0;
    if s[..|t|] != t {
      var k := ContainedAt(s[1..], t);
      i := k + 1;
      assert s[i..i + |t|] == s[1..][k..k + |t|];
    }
  }

  lemma ContainsMeans(s: string, t: string)
    ensures Contains(s, t) <==> exists a, b :: s == a + t + b
  {
    if Contains(s, t) {
      var i := ContainedAt(s, t);
      assert s == s[..i] + s[i..i + |t|] + s[i + |t|..];
    }
    if a, b :| s == a + t + b {
      assert s[|a|..|a| + |t|] == t;
      ContainsAt(s, t, |a|);
    }
  }

  /** Independent reading of the heuristic: a key that ends in `-port` or has one of three words in it. */
  lemma InboundLikeMeans(key: string)
    ensures InboundLike(key) <==>
            || (exists a :: key == a + "-port")
            || (exists a, b :: key == a + "listener" + b)
            || (exists a, b :: key == a + "inbound" + b)
            || (exists a, b :: key == a + "tunnel" + b)
  {
    ContainsMeans(key, "listener");
    ContainsMeans(key, "inbound");
    ContainsMeans(key, "tunnel");
    hide Contains;
    if HasSuffix(key, "-port") { assert key == key[..|key| - 5] + "-port"; }
    if a :| key == a + "-port" { assert key[|key| - 5..] == "-port"; }
  }

  predicate NonEmptyCollection(v: Doc) {
    match v
    case Null => false
    case Str(s) => s != ""
    case Seq(items) => items != []
    case Map(m) => m != map[]
    case Bool(_) => true
    case Int(_) => true
    case Float(_) => true
  }

  const BLOBS: set<string> := {"ss-config", "vmess-config", "tcptun-config", "udptun-config"}
  const COLLECTIONS: set<string> := {"listeners", "tunnels"}

  predicate Blank(v: Doc) { v == Null || v == Str("") }

  predicate TunBlocks(document: Mapping) {
    TUN in document && (!document[TUN].Map? ||
      ("enable" in document[TUN].m && !document[TUN].m["enable"].Bool?))
  }

  predicate TuicBlocks(document: Mapping) {
    TUIC in document && (!document[TUIC].Map? ||
      !(Get(document[TUIC].m, "enable") == Some(Bool(false)) || document[TUIC].m == map[]))
  }

  predicate UnknownInbound(s: Schema, document: Mapping) {
    exists key :: key in document && InboundLike(key) && key !in s.patch && key !in COLLECTIONS
  }

  predicate BadPort(document: Mapping) { exists k :: k in PORTS && k in document && !IsI64(document[k]) }

  predicate OpenBlob(document: Mapping) { exists k :: k in BLOBS && k in document && document[k] != Str("") }

  predicate OpenCollection(document: Mapping) {
    exists k :: k in COLLECTIONS && k in document && NonEmptyCollection(document[k])
  }

  function OverlapBlock(s: Schema, document: Mapping): Option<Block> {
    var listen := DnsListen(document);
    if listen.Some? then
      if listen.value.Str? then (if listen.value.s == "" then None else Some(DnsListens))
      else if listen.value.Null? then None
      else Some(InboundSurface)
    else if BadPort(document) then Some(InboundSurface)
    else if TunBlocks(document) || TuicBlocks(document) then Some(InboundSurface)
    else if OpenBlob(document) || OpenCollection(document) then Some(InboundSurface)
    else if UnknownInbound(s, document) then Some(InboundSurface)
    else None
  }

  predicate OpenPort(d: Mapping) { exists k :: k in PORTS && k in d && d[k] != Int(0) }

  predicate OpenTun(d: Mapping) {
    TUN in d && !(d[TUN].Map? && ("enable" in d[TUN].m ==> d[TUN].m["enable"] == Bool(false)))
  }

  /** Could this entry still bind a socket? Key by key, from the value alone. */
  predicate Binds(s: Schema, key: string, v: Doc) {
    || (InboundLike(key) && key !in s.patch && key !in COLLECTIONS)
    || (if key == "dns" then v.Map? && "listen" in v.m && !(v.m["listen"] == Null || v.m["listen"] == Str(""))
        else if key in PORTS then v != Int(0)
        else if key == TUN then !(v.Map? && ("enable" !in v.m || v.m["enable"] == Bool(false)))
        else if key == TUIC then !(v.Map? && (v.m == map[] || ("enable" in v.m && v.m["enable"] == Bool(false))))
        else if key in BLOBS then v != Str("")
        else key in COLLECTIONS && !(v == Null || v == Str("") || v == Seq([]) || v == Map(map[])))
  }

  /** What could still bind a socket in a document. */
  predicate OpensInbound(s: Schema, d: Mapping) { exists key :: key in d && Binds(s, key, d[key]) }

  /** The same, by the groups of keys the gate looks at. */
  predicate OpenGroups(s: Schema, d: Mapping) {
    || (DnsListen(d).Some? && !Blank(DnsListen(d).value))
    || OpenPort(d) || OpenTun(d) || TuicBlocks(d) || OpenBlob(d) || OpenCollection(d) || UnknownInbound(s, d)
  }

  lemma KeyGroups()
    ensures "dns" !in PORTS + BLOBS + COLLECTIONS + {TUN, TUIC}
    ensures TUN !in PORTS + BLOBS + COLLECTIONS && TUIC !in PORTS + BLOBS + COLLECTIONS && TUN != TUIC
    ensures PORTS !! BLOBS && PORTS !! COLLECTIONS && BLOBS !! COLLECTIONS
  {
  }

  lemma OpensByGroup(s: Schema, d: Mapping)
    ensures OpensInbound(s, d) <==> OpenGroups(s, d)
  {
    KeyGroups();
    hide InboundLike;
    if OpensInbound(s, d) {
      var key :| key in d && Binds(s, key, d[key]);
      assert key in PORTS ==> key !in BLOBS + COLLECTIONS;
    }
    if OpenGroups(s, d) {
      var key := OpenKey(s, d);
      assert Binds(s, key, d[key]);
    }
  }

  lemma OpenKey(s: Schema, d: Mapping) returns (key: string)
    requires OpenGroups(s, d)
    ensures key in d && Binds(s, key, d[key])
  {
    KeyGroups();
    hide InboundLike;
    if DnsListen(d).Some? && !Blank(DnsListen(d).value) { key := "dns"; }
    else if OpenPort(d) { key :| key in PORTS && key in d && d[key] != Int(0); }
    else if OpenTun(d) { key := TUN; }
    else if TuicBlocks(d) { key := TUIC; }
    else if OpenBlob(d) { key :| key in BLOBS && key in d && d[key] != Str(""); assert key !in PORTS; }
    else if OpenCollection(d) {
      key :| key in COLLECTIONS && key in d && NonEmptyCollection(d[key]);
      assert key !in PORTS && key !in BLOBS;
    }
    else { key :| key in d && InboundLike(key) && key !in s.patch && key !in COLLECTIONS; }
  }

  /** Zeroing leaves alone everything but the ports and `tun`. */
  lemma ZeroingKeeps(s: Schema, d: Mapping)
    ensures var z := ZeroInbounds(d);
            && DnsListen(z) == DnsListen(d) && TuicBlocks(z) == TuicBlocks(d)
            && UnknownInbound(s, z) == UnknownInbound(s, d)
            && OpenBlob(z) == OpenBlob(d) && OpenCollection(z) == OpenCollection(d)
  {
    var z := ZeroInbounds(d);
    assert z.Keys == d.Keys && forall k :: k in d && k !in PORTS && k != TUN ==> z[k] == d[k];
    assert forall k :: k in BLOBS + COLLECTIONS + {TUIC, "dns"} ==> k !in PORTS && k != TUN;
    assert TUIC in BLOBS + COLLECTIONS + {TUIC, "dns"} && "dns" in BLOBS + COLLECTIONS + {TUIC, "dns"};
    hide ZeroInbounds, NonEmptyCollection;
  }

  /** A port stays open exactly if it is not an integer. */
  lemma ZeroingPorts(d: Mapping)
    ensures OpenPort(ZeroInbounds(d)) <==> BadPort(d)
  {
    var z := ZeroInbounds(d);
    assert TUN !in PORTS;
    assert forall k :: k in PORTS && k in d ==> k in z && (z[k] != Int(0) <==> !IsI64(d[k]));
  }

  lemma ZeroingTun(d: Mapping)
    ensures OpenTun(ZeroInbounds(d)) <==> TunBlocks(d)
  {
    assert TUN !in PORTS;
  }

  /**
   The gate allows an overlap exactly when the zeroed document opens no inbound,
   except that a present but blank `dns.listen` hides whatever else is open. The
   dns reason is given exactly for a listening address.
   */
  lemma OverlapGate(s: Schema, d: Mapping)
    ensures var hidden := DnsListen(d).Some? && Blank(DnsListen(d).value) && OpensInbound(s, ZeroInbounds(d));
            (OverlapBlock(s, d).None? <==> !OpensInbound(s, ZeroInbounds(d))) <==> !hidden
    ensures DnsListen(d).Some? ==> (OverlapBlock(s, d).None? <==> Blank(DnsListen(d).value))
    ensures OverlapBlock(s, d) == Some(DnsListens) <==>
              DnsListen(d).Some? && DnsListen(d).value.Str? && !Blank(DnsListen(d).value)
  {
    ZeroingKeeps(s, d);
    ZeroingPorts(d);
    ZeroingTun(d);
    OpensByGroup(s, ZeroInbounds(d));
    hide ZeroInbounds, OpenPort, BadPort, OpenTun, TunBlocks, TuicBlocks,
         OpenBlob, OpenCollection, UnknownInbound, OpensInbound;
  }

  /** A present but blank `dns.listen` lets an open listener through the gate. */
  lemma BlankDnsListenHidesListeners(s: Schema)
    ensures exists d: Mapping :: OverlapBlock(s, d).None? && OpensInbound(s, ZeroInbounds(d))
  {
    var d: Mapping := map["dns" := Map(map["listen" := Str("")]), "listeners" := Seq([Null])];
    var z := ZeroInbounds(d);
    assert z["listeners"] == d["listeners"];
    assert "listeners" in COLLECTIONS && NonEmptyCollection(z["listeners"]);
    assert OpenCollection(z);
    OpensByGroup(s, z);
    assert OverlapBlock(s, d).None?;
  }
}
