/**
 The pod's volumes and the mounts that refer to them by name. Both lists are built from the
 same configuration by separate code; a duplicate name is dropped from each.
 */
module Volumes {

  datatype HostPath = HostPath(name: string, mountPath: string, subPath: string, readOnly: bool, hostPath: string)
  datatype Secret = Secret(name: string, mountPath: string, subPath: string, readOnly: bool, items: map<string, string>)
  datatype Claim = Claim(name: string, mountPath: string, subPath: string, readOnly: bool)
  datatype ConfigMap = ConfigMap(name: string, mountPath: string, subPath: string, readOnly: bool, items: map<string, string>)
  datatype EmptyDir = EmptyDir(name: string, mountPath: string, subPath: string, medium: string)
  datatype Projected = Projected(name: string, mountPath: string, sources: seq<string>)

  datatype Config = Config(
    hostPaths: seq<HostPath>, secrets: seq<Secret>, claims: seq<Claim>,
    configMaps: seq<ConfigMap>, emptyDirs: seq<EmptyDir>, projected: seq<Projected>)

  datatype Mount = Mount(name: string, mountPath: string, subPath: string, readOnly: bool)

  datatype VolumeSource =
    | HostPathSource(path: string)
    | SecretSource(secretName: string, items: map<string, string>)
    | ClaimSource(claimName: string, readOnly: bool)
    | ConfigMapSource(configName: string, mode: int, optional: bool, items: map<string, string>)
    | EmptyDirSource(medium: string)
    | ProjectedSource(sources: seq<string>)

  datatype Volume = Volume(name: string, source: VolumeSource)

  /** An entry of the configuration, of whatever kind. */
  datatype Item =
    | OfHostPath(hostPath: HostPath)
    | OfSecret(secret: Secret)
    | OfClaim(claim: Claim)
    | OfConfigMap(configMap: ConfigMap)
    | OfEmptyDir(emptyDir: EmptyDir)
    | OfProjected(projected: Projected)
  {
    function Name(): string {
      match this
      case OfHostPath(h) => h.name
      case OfSecret(s) => s.name
      case OfClaim(c) => c.name
      case OfConfigMap(c) => c.name
      case OfEmptyDir(e) => e.name
      case OfProjected(p) => p.name
    }

    /** Projected volumes are not mounted here. */
    predicate Mountable() { !OfProjected? }

    function ToMount(): Mount
      requires Mountable()
    {
      match this
      case OfHostPath(h) => Mount(h.name, h.mountPath, h.subPath, h.readOnly)
      case OfSecret(s) => Mount(s.name, s.mountPath, s.subPath, s.readOnly)
      case OfClaim(c) => Mount(c.name, c.mountPath, c.subPath, c.readOnly)
      case OfConfigMap(c) => Mount(c.name, c.mountPath, c.subPath, c.readOnly)
      case OfEmptyDir(e) => Mount(e.name, e.mountPath, e.subPath, false)
    }

    function ToVolume(): Volume {
      match this
      case OfHostPath(h) => Volume(h.name, HostPathSource(if h.hostPath == "" then h.mountPath else h.hostPath))
      case OfSecret(s) => Volume(s.name, SecretSource(s.name, s.items))
      case OfClaim(c) => Volume(c.name, ClaimSource(c.name, c.readOnly))
      case OfConfigMap(c) => Volume(c.name, ConfigMapSource(c.name, 511, false, c.items))
      case OfEmptyDir(e) => Volume(e.name, EmptyDirSource(e.medium))
      case OfProjected(p) => Volume(p.name, ProjectedSource(p.sources))
    }
  }

  function HostPathItems(c: Config): seq<Item> { seq(|c.hostPaths|, i requires 0 <= i < |c.hostPaths| => OfHostPath(c.hostPaths[i])) }
  function SecretItems(c: Config): seq<Item> { seq(|c.secrets|, i requires 0 <= i < |c.secrets| => OfSecret(c.secrets[i])) }
  function ClaimItems(c: Config): seq<Item> { seq(|c.claims|, i requires 0 <= i < |c.claims| => OfClaim(c.claims[i])) }
  function ConfigMapItems(c: Config): seq<Item> { seq(|c.configMaps|, i requires 0 <= i < |c.configMaps| => OfConfigMap(c.configMaps[i])) }
  function EmptyDirItems(c: Config): seq<Item> { seq(|c.emptyDirs|, i requires 0 <= i < |c.emptyDirs| => OfEmptyDir(c.emptyDirs[i])) }
  function ProjectedItems(c: Config): seq<Item> { seq(|c.projected|, i requires 0 <= i < |c.projected| => OfProjected(c.projected[i])) }

  function MountableItems(c: Config): seq<Item> {
    HostPathItems(c) + SecretItems(c) + ClaimItems(c) + ConfigMapItems(c) + EmptyDirItems(c)
  }

  ghost predicate AllMountable(items: seq<Item>) { forall i :: 0 <= i < |items| ==> items[i].Mountable() }

  /******* The first entry of each name *******/

  predicate Named(items: seq<Item>, name: string) { exists i :: 0 <= i < |items| && items[i].Name() == name }

  function Kept(items: seq<Item>): (r: seq<Item>)
    ensures |r| <= |items|
  {
    if items == [] then []
    else
      var init, last := Kept(items[..|items| - 1]), items[|items| - 1];
      if Named(init, last.Name()) then init else init + [last]
  }

  ghost predicate DistinctNames(items: seq<Item>) {
    forall i, j :: 0 <= i < j < |items| ==> items[i].Name() != items[j].Name()
  }

  lemma {:induction false} KeptDistinct(items: seq<Item>)
    ensures DistinctNames(Kept(items))
    ensures AllMountable(items) ==> AllMountable(Kept(items))
  {
    if items != [] {
      KeptDistinct(items[..|items| - 1]);
    }
  }

  /** What is kept of a longer list starts with what is kept of the shorter. */
  lemma {:induction false} KeptPrefix(a: seq<Item>, b: seq<Item>)
    ensures Kept(a) <= Kept(a + b)
  {
    if b == [] {
      assert a + b == a;
    } else {
      assert (a + b)[..|a + b| - 1] == a + b[..|b| - 1];
      KeptPrefix(a, b[..|b| - 1]);
    }
  }

  ghost predicate FirstOfName(items: seq<Item>, item: Item) {
    exists i :: 0 <= i < |items| && items[i] == item && forall j :: 0 <= j < i ==> items[j].Name() != item.Name()
  }

  /** An entry is kept exactly when it is the first of its name. */
  lemma {:induction false} KeptIsFirst(items: seq<Item>, item: Item)
    ensures item in Kept(items) <==> FirstOfName(items, item)
    ensures Named(Kept(items), item.Name()) <==> Named(items, item.Name())
  {
    if items != [] {
      var init, last := items[..|items| - 1], items[|items| - 1];
      KeptIsFirst(init, item);
      KeptIsFirst(init, last);
      assert items == init + [last];
      NamedSnoc(init, last, item.Name());
      NamedSnoc(Kept(init), last, item.Name());
      FirstSnoc(init, last, item);
    }
  }

  lemma NamedSnoc(items: seq<Item>, last: Item, name: string)
    ensures Named(items + [last], name) <==> Named(items, name) || last.Name() == name
  {
    var all := items + [last];
    if Named(items, name) {
      var i :| 0 <= i < |items| && items[i].Name() == name;
      assert all[i].Name() == name;
    }
    assert all[|items|] == last;
  }

  lemma FirstSnoc(items: seq<Item>, last: Item, item: Item)
    ensures FirstOfName(items + [last], item) <==>
            FirstOfName(items, item) || (item == last && !Named(items, last.Name()))
  {
    var all := items + [last];
    if FirstOfName(items, item) {
      var i :| 0 <= i < |items| && items[i] == item && forall j :: 0 <= j < i ==> items[j].Name() != item.Name();
      assert all[i] == item;
    }
    if item == last && !Named(items, last.Name()) {
      assert all[|items|] == item;
    }
    assert forall j :: 0 <= j < |items| ==> all[j] == items[j];
    if FirstOfName(all, item) {
      var i :| 0 <= i < |all| && all[i] == item && forall j :: 0 <= j < i ==> all[j].Name() != item.Name();
      if i < |items| {
        assert items[i] == item;
      }
    }
  }

  /******* The two lists *******/

  function Mounts(items: seq<Item>): (r: seq<Mount>)
    requires AllMountable(items)
    ensures |r| == |items|
  {
    seq(|items|, i requires 0 <= i < |items| => items[i].ToMount())
  }

  function ToVolumes(items: seq<Item>): (r: seq<Volume>)
    ensures |r| == |items|
  {
    seq(|items|, i requires 0 <= i < |items| => items[i].ToVolume())
  }

  predicate HasMount(mounts: seq<Mount>, name: string) { exists i :: 0 <= i < |mounts| && mounts[i].name == name }

  predicate HasVolume(volumes: seq<Volume>, name: string) { exists i :: 0 <= i < |volumes| && volumes[i].name == name }

  method AddVolumeMount(mounts: seq<Mount>, mount: Mount) returns (r: seq<Mount>)
    ensures r == if HasMount(mounts, mount.name) then mounts else mounts + [mount]
  {
    for i := 0 to |mounts|
      invariant forall j :: 0 <= j < i ==> mounts[j].name != mount.name
    {
      if mounts[i].name == mount.name {
        return mounts;
      }
    }
    r := mounts + [mount];
  }

  method AddVolume(volumes: seq<Volume>, volume: Volume) returns (r: seq<Volume>)
    ensures r == if HasVolume(volumes, volume.name) then volumes else volumes + [volume]
  {
    for i := 0 to |volumes|
      invariant forall j :: 0 <= j < i ==> volumes[j].name != volume.name
    {
      if volumes[i].name == volume.name {
        return volumes;
      }
    }
    r := volumes + [volume];
  }

  lemma KeptSnoc(items: seq<Item>, item: Item)
    ensures Kept(items + [item]) == if Named(Kept(items), item.Name()) then Kept(items) else Kept(items) + [item]
  {
    assert (items + [item])[..|items|] == items;
  }

  lemma MountNames(items: seq<Item>, name: string)
    requires AllMountable(items)
    ensures HasMount(Mounts(items), name) <==> Named(items, name)
  {
    assert forall i :: 0 <= i < |items| ==> Mounts(items)[i].name == items[i].Name();
  }

  lemma VolumeNames(items: seq<Item>, name: string)
    ensures HasVolume(ToVolumes(items), name) <==> Named(items, name)
  {
    assert forall i :: 0 <= i < |items| ==> ToVolumes(items)[i].name == items[i].Name();
  }

  /** Adding an entry's mount is keeping the entry. */
  lemma AddedMount(done: seq<Item>, item: Item)
    requires AllMountable(done) && item.Mountable()
    ensures AllMountable(Kept(done)) && AllMountable(done + [item]) && AllMountable(Kept(done + [item]))
    ensures
      var mounts := Mounts(Kept(done));
      Mounts(Kept(done + [item])) == if HasMount(mounts, item.ToMount().name) then mounts else mounts + [item.ToMount()]
  {
    KeptDistinct(done);
    KeptDistinct(done + [item]);
    KeptSnoc(done, item);
    MountNames(Kept(done), item.Name());
    assert item.ToMount().name == item.Name();
    if !Named(Kept(done), item.Name()) {
      assert Mounts(Kept(done) + [item]) == Mounts(Kept(done)) + [item.ToMount()];
    }
  }

  lemma AddedVolume(done: seq<Item>, item: Item)
    ensures
      var volumes := ToVolumes(Kept(done));
      ToVolumes(Kept(done + [item])) == if HasVolume(volumes, item.ToVolume().name) then volumes else volumes + [item.ToVolume()]
  {
    KeptSnoc(done, item);
    VolumeNames(Kept(done), item.Name());
    assert item.ToVolume().name == item.Name();
    if !Named(Kept(done), item.Name()) {
      assert ToVolumes(Kept(done) + [item]) == ToVolumes(Kept(done)) + [item.ToVolume()];
    }
  }

  /** The mounts that the entries of a list give, in order. */
  ghost predicate MountsOf(mounts: seq<Mount>, items: seq<Item>) {
    AllMountable(items) && AllMountable(Kept(items)) && mounts == Mounts(Kept(items))
  }

  ghost predicate VolumesOf(volumes: seq<Volume>, items: seq<Item>) { volumes == ToVolumes(Kept(items)) }

  method AddMountFor(mounts: seq<Mount>, ghost done: seq<Item>, item: Item) returns (r: seq<Mount>)
    requires item.Mountable() && MountsOf(mounts, done)
    ensures MountsOf(r, done + [item])
  {
    AddedMount(done, item);
    r := AddVolumeMount(mounts, item.ToMount());
  }

  method AddVolumeFor(volumes: seq<Volume>, ghost done: seq<Item>, item: Item) returns (r: seq<Volume>)
    requires VolumesOf(volumes, done)
    ensures VolumesOf(r, done + [item])
  {
    AddedVolume(done, item);
    r := AddVolume(volumes, item.ToVolume());
  }

  lemma OneMore(done: seq<Item>, items: seq<Item>, i: nat)
    requires i < |items|
    ensures done + items[..i] + [items[i]] == done + items[..i + 1]
  {
    assert items[..i + 1] == items[..i] + [items[i]];
  }

  /** Adds the mounts of more entries to those of earlier ones. */
  method AddMounts(mounts: seq<Mount>, ghost done: seq<Item>, items: seq<Item>) returns (r: seq<Mount>)
    requires AllMountable(items) && MountsOf(mounts, done)
    ensures MountsOf(r, done + items)
  {
    r := mounts;
    assert done + items[..0] == done;
    for i := 0 to |items|
      invariant MountsOf(r, done + items[..i])
    {
      r := AddMountFor(r, done + items[..i], items[i]);
      OneMore(done, items, i);
    }
    assert items[..|items|] == items;
  }

  method AddVolumes(volumes: seq<Volume>, ghost done: seq<Item>, items: seq<Item>) returns (r: seq<Volume>)
    requires VolumesOf(volumes, done)
    ensures VolumesOf(r, done + items)
  {
    r := volumes;
    assert done + items[..0] == done;
    for i := 0 to |items|
      invariant VolumesOf(r, done + items[..i])
    {
      r := AddVolumeFor(r, done + items[..i], items[i]);
      OneMore(done, items, i);
    }
    assert items[..|items|] == items;
  }

  method GetVolumeMounts(c: Config) returns (mounts: seq<Mount>)
    ensures MountsOf(mounts, MountableItems(c))
  {
    mounts := AddMounts([], [], HostPathItems(c));
    mounts := AddMounts(mounts, [] + HostPathItems(c), SecretItems(c));
    mounts := AddMounts(mounts, [] + HostPathItems(c) + SecretItems(c), ClaimItems(c));
    mounts := AddMounts(mounts, [] + HostPathItems(c) + SecretItems(c) + ClaimItems(c), ConfigMapItems(c));
    mounts := AddMounts(mounts, [] + HostPathItems(c) + SecretItems(c) + ClaimItems(c) + ConfigMapItems(c), EmptyDirItems(c));
    assert [] + HostPathItems(c) == HostPathItems(c);
  }

  method GetVolumes(c: Config) returns (volumes: seq<Volume>)
    ensures VolumesOf(volumes, MountableItems(c) + ProjectedItems(c))
  {
    volumes := AddVolumes([], [], HostPathItems(c));
    volumes := AddVolumes(volumes, [] + HostPathItems(c), SecretItems(c));
    volumes := AddVolumes(volumes, [] + HostPathItems(c) + SecretItems(c), ClaimItems(c));
    volumes := AddVolumes(volumes, [] + HostPathItems(c) + SecretItems(c) + ClaimItems(c), ConfigMapItems(c));
    volumes := AddVolumes(volumes, [] + HostPathItems(c) + SecretItems(c) + ClaimItems(c) + ConfigMapItems(c), EmptyDirItems(c));
    assert [] + HostPathItems(c) == HostPathItems(c);
    volumes := AddVolumes(volumes, MountableItems(c), ProjectedItems(c));
  }

  /** The mount and the volume at a place are made from the same entry, the first of its name. */
  ghost predicate Paired(c: Config, mount: Mount, volume: Volume) {
    exists item: Item ::
      item.Mountable() && FirstOfName(MountableItems(c), item) && mount == item.ToMount() && volume == item.ToVolume()
  }

  lemma PairAt(c: Config, mounts: seq<Mount>, volumes: seq<Volume>, i: nat)
    requires MountsOf(mounts, MountableItems(c)) && VolumesOf(volumes, MountableItems(c) + ProjectedItems(c))
    requires i < |mounts|
    ensures i < |volumes| && mounts[i].name == volumes[i].name && Paired(c, mounts[i], volumes[i])
  {
    var items := MountableItems(c);
    KeptPrefix(items, ProjectedItems(c));
    var item := Kept(items)[i];
    assert item == Kept(items + ProjectedItems(c))[i];
    KeptIsFirst(items, item);
  }

  /**
   For every configuration: names are unique in both lists, the mounts' names are the first
   names of the volumes, and each mount and the volume of the same name are made from the
   same entry.
   */
  lemma MountsHaveVolumes(c: Config, mounts: seq<Mount>, volumes: seq<Volume>)
    requires MountsOf(mounts, MountableItems(c)) && VolumesOf(volumes, MountableItems(c) + ProjectedItems(c))
    ensures |mounts| <= |volumes|
    ensures forall i, j :: 0 <= i < j < |volumes| ==> volumes[i].name != volumes[j].name
    ensures forall i :: 0 <= i < |mounts| ==>
      mounts[i].name == volumes[i].name && Paired(c, mounts[i], volumes[i])
  {
    var all := MountableItems(c) + ProjectedItems(c);
    KeptDistinct(all);
    assert forall i :: 0 <= i < |volumes| ==> volumes[i].name == Kept(all)[i].Name();
    KeptPrefix(MountableItems(c), ProjectedItems(c));
    forall i | 0 <= i < |mounts|
      ensures mounts[i].name == volumes[i].name && Paired(c, mounts[i], volumes[i])
    {
      PairAt(c, mounts, volumes, i);
    }
  }
}
