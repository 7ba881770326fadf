/** The `discovery` object: the validated region, the DNS suffix built from
    it, and the selection of inventory devices that become scrape targets. */
module Discovery {
  import opened Wrappers
  import opened Errors
  import opened Chars
  import opened Pattern
  import opened Config

  /** An inventory record; only its name is used. */
  datatype Device = Device(name: string)

  /** The constructed object: region, inventory host and DNS suffix. */
  datatype Discovery = Discovery(region: string, netbox: Value, dnsSuffix: string)

  /** Two lower-case letters, a dash, two lower-case letters, a dash, a digit. */
  predicate IsRegion(s: string) {
    && |s| == 7
    && IsLower(s[0]) && IsLower(s[1]) && s[2] == '-'
    && IsLower(s[3]) && IsLower(s[4]) && s[5] == '-'
    && IsDigit(s[6])
  }

  /** `[a-z]{2}-[a-z]{2}-\d` */
  const RegionPattern: Pattern :=
    [Piece(Range('a', 'z'), 2)] + [Piece(Literal('-'), 1)] + [Piece(Range('a', 'z'), 2)]
    + [Piece(Literal('-'), 1)] + [Piece(Digit, 1)]

  /** `<region>-asw20\d-bm\d{3}`, with the region interpolated literally. */
  function DevicePattern(region: string): Pattern {
    Lit(region) + Lit("-asw20") + [Piece(Digit, 1)] + Lit("-bm") + [Piece(Digit, 3)]
  }

  /** A switch name of the region: the region, `-asw20`, one digit, `-bm`
      and three digits, and nothing more. */
  predicate IsDeviceName(region: string, name: string) {
    var n := |region|;
    && |name| == n + 13
    && name[..n] == region
    && name[n..n + 6] == "-asw20"
    && IsDigit(name[n + 6])
    && name[n + 7..n + 10] == "-bm"
    && IsDigit(name[n + 10]) && IsDigit(name[n + 11]) && IsDigit(name[n + 12])
  }

  /** The region pattern accepts exactly the strings `IsRegion` describes. */
  lemma RegionPatternMatches(s: string)
    ensures FullMatch(RegionPattern, s) <==> IsRegion(s)
  {
    var az, dash, d := Range('a', 'z'), Literal('-'), Digit;
    var p1, p2, p3, p4, p5 := [Piece(az, 2)], [Piece(dash, 1)], [Piece(az, 2)], [Piece(dash, 1)], [Piece(d, 1)];
    ExpandAppend(p1 + p2 + p3 + p4, p5);
    ExpandAppend(p1 + p2 + p3, p4);
    ExpandAppend(p1 + p2, p3);
    ExpandAppend(p1, p2);
    ExpandOne(az, 2);
    ExpandOne(dash, 1);
    ExpandOne(d, 1);
    var e := Expand(RegionPattern);
    assert e == [az, az, dash, az, az, dash, d];
    FullMatchIsAcceptsAll(RegionPattern, s);
    if IsRegion(s) {
      assert forall i :: 0 <= i < 7 ==> Accepts(e[i], s[i]);
    }
    if AcceptsAll(e, s) {
      assert Accepts(e[0], s[0]) && Accepts(e[1], s[1]) && Accepts(e[2], s[2]);
      assert Accepts(e[3], s[3]) && Accepts(e[4], s[4]) && Accepts(e[5], s[5]);
      assert Accepts(e[6], s[6]);
    }
  }

  /** The device pattern unrolled: one literal per region character, then
      `-asw20`, a digit, `-bm` and three digits. */
  const DeviceTail: seq<CharClass> :=
    [Literal('-'), Literal('a'), Literal('s'), Literal('w'), Literal('2'), Literal('0'), Digit,
     Literal('-'), Literal('b'), Literal('m'), Digit, Digit, Digit]

  lemma DevicePatternExpands(region: string)
    ensures Expand(DevicePattern(region)) == Expand(Lit(region)) + DeviceTail
  {
    var lr, la, d1, lb, d3 := Lit(region), Lit("-asw20"), [Piece(Digit, 1)], Lit("-bm"), [Piece(Digit, 3)];
    ExpandAppend(lr + la + d1 + lb, d3);
    ExpandAppend(lr + la + d1, lb);
    ExpandAppend(lr + la, d1);
    ExpandAppend(lr, la);
    ExpandLit("-asw20");
    ExpandLit("-bm");
    ExpandOne(Digit, 1);
    ExpandOne(Digit, 3);
    assert Expand(la) == DeviceTail[..6];
    assert Expand(lb) == DeviceTail[7..10];
    assert Expand(d1) == DeviceTail[6..7];
    assert Expand(d3) == DeviceTail[10..];
  }

  /** `e` is the device pattern of `region`, unrolled. */
  predicate IsDeviceClasses(region: string, e: seq<CharClass>) {
    && |e| == |region| + 13
    && (forall i :: 0 <= i < |region| ==> e[i] == Literal(region[i]))
    && (forall i :: 0 <= i < 13 ==> e[|region| + i] == DeviceTail[i])
  }

  lemma DeviceClassesAccept(region: string, name: string, e: seq<CharClass>)
    requires IsDeviceClasses(region, e)
    requires IsDeviceName(region, name)
    ensures AcceptsAll(e, name)
  {
    var n := |region|;
    forall i | 0 <= i < |name|
      ensures Accepts(e[i], name[i])
    {
      if i < n {
        assert name[..n][i] == name[i];
      } else if i < n + 6 {
        assert e[n + (i - n)] == DeviceTail[i - n];
        assert name[n..n + 6][i - n] == name[i];
      } else if i == n + 6 {
        assert e[n + 6] == DeviceTail[6];
      } else if i < n + 10 {
        assert e[n + (i - n)] == DeviceTail[i - n];
        assert name[n + 7..n + 10][i - n - 7] == name[i];
      } else {
        assert e[n + (i - n)] == DeviceTail[i - n];
      }
    }
  }

  lemma DeviceClassesOnlyAccept(region: string, name: string, e: seq<CharClass>)
    requires IsDeviceClasses(region, e)
    requires AcceptsAll(e, name)
    ensures IsDeviceName(region, name)
  {
    var n := |region|;
    assert name[..n] == region by {
      forall i | 0 <= i < n ensures name[..n][i] == region[i] {
        assert Accepts(e[i], name[i]);
      }
    }
    assert name[n..n + 6] == "-asw20" by {
      forall i | 0 <= i < 6 ensures name[n..n + 6][i] == "-asw20"[i] {
        assert e[n + i] == DeviceTail[i];
        assert Accepts(e[n + i], name[n + i]);
      }
    }
    assert name[n + 7..n + 10] == "-bm" by {
      forall i | 0 <= i < 3 ensures name[n + 7..n + 10][i] == "-bm"[i] {
        assert e[n + (7 + i)] == DeviceTail[7 + i];
        assert Accepts(e[n + 7 + i], name[n + 7 + i]);
      }
    }
    assert e[n + 6] == DeviceTail[6] && Accepts(e[n + 6], name[n + 6]);
    assert e[n + 10] == DeviceTail[10] && Accepts(e[n + 10], name[n + 10]);
    assert e[n + 11] == DeviceTail[11] && Accepts(e[n + 11], name[n + 11]);
    assert e[n + 12] == DeviceTail[12] && Accepts(e[n + 12], name[n + 12]);
  }

  /** The device pattern of a region accepts exactly the names
      `IsDeviceName` describes. */
  lemma DevicePatternMatches(region: string, name: string)
    ensures FullMatch(DevicePattern(region), name) <==> IsDeviceName(region, name)
  {
    DevicePatternExpands(region);
    ExpandLit(region);
    var e := Expand(DevicePattern(region));
    assert IsDeviceClasses(region, e);
    FullMatchIsAcceptsAll(DevicePattern(region), name);
    if IsDeviceName(region, name) {
      DeviceClassesAccept(region, name, e);
    }
    if AcceptsAll(e, name) {
      DeviceClassesOnlyAccept(region, name, e);
    }
  }

  /** A name built from the region, the generation digit and the three rack
      digits is a device name of the region. */
  lemma BuiltNameIsDeviceName(region: string, g: char, a: char, b: char, c: char)
    requires IsDigit(g) && IsDigit(a) && IsDigit(b) && IsDigit(c)
    ensures IsDeviceName(region, region + "-asw20" + [g] + "-bm" + [a, b, c])
  {
    var name := region + "-asw20" + [g] + "-bm" + [a, b, c];
    var n := |region|;
    assert name[..n] == region;
    assert name[n..n + 6] == "-asw20";
    assert name[n + 7..n + 10] == "-bm";
  }

  /** Conversely every device name of the region is built that way. */
  lemma DeviceNameIsBuilt(region: string, name: string)
    requires IsDeviceName(region, name)
    ensures var n := |region|;
            name == region + "-asw20" + [name[n + 6]] + "-bm" + [name[n + 10], name[n + 11], name[n + 12]]
  {
    var n := |region|;
    var built := region + "-asw20" + [name[n + 6]] + "-bm" + [name[n + 10], name[n + 11], name[n + 12]];
    assert |built| == |name|;
    forall i | 0 <= i < |name|
      ensures built[i] == name[i]
    {
      if i < n {
        assert name[..n][i] == name[i];
      } else if i < n + 6 {
        assert name[n..n + 6][i - n] == name[i];
      } else if n + 7 <= i < n + 10 {
        assert name[n + 7..n + 10][i - n - 7] == name[i];
      }
    }
  }

  /** The DNS suffix of a region: `.cc.`, the region, `.cloud.sap`. */
  function DnsSuffix(region: string): (r: string)
    ensures |r| == |region| + 14
    ensures r[..4] == ".cc." && r[4..|region| + 4] == region && r[|region| + 4..] == ".cloud.sap"
  {
    ".cc." + region + ".cloud.sap"
  }

  /** Distinct regions have distinct suffixes. */
  lemma DnsSuffixInjective(a: string, b: string)
    requires DnsSuffix(a) == DnsSuffix(b)
    ensures a == b
  {
    assert a == DnsSuffix(a)[4..|a| + 4];
    assert b == DnsSuffix(b)[4..|b| + 4];
  }

  /** The device name a target was built from: the target without the
      region's suffix, if it ends with it. */
  function NameOfTarget(region: string, target: string): (r: Option<string>)
    ensures r.Some? ==> target == r.value + DnsSuffix(region)
  {
    var k := |DnsSuffix(region)|;
    if k <= |target| && target[|target| - k..] == DnsSuffix(region)
    then Some(target[..|target| - k])
    else None
  }

  /** Appending the suffix and taking it off again gives the device name back. */
  lemma NameOfTargetRoundTrip(region: string, name: string)
    ensures NameOfTarget(region, name + DnsSuffix(region)) == Some(name)
  {
    var t := name + DnsSuffix(region);
    assert t[|t| - |DnsSuffix(region)|..] == DnsSuffix(region);
    assert t[..|t| - |DnsSuffix(region)|] == name;
  }

  /** `check_region`: the region passes when the whole string matches the
      region pattern; otherwise the process ends reporting the region. */
  function CheckRegion(region: string): (r: Result<string, Error>)
    ensures r.Success? <==> IsRegion(region)
    ensures r.Success? ==> r.value == region
    ensures r.Failure? ==> r.error == InvalidRegion(region)
  {
    RegionPatternMatches(region);
    if FullMatch(RegionPattern, region) then Success(region) else Failure(InvalidRegion(region))
  }

  /** A constructed object: a valid region and the suffix built from it. */
  predicate Valid(d: Discovery) {
    IsRegion(d.region) && d.dnsSuffix == DnsSuffix(d.region)
  }

  const NetboxKey := "netbox"

  /** `discovery.__init__`: reads the region and the inventory host from the
      settings, builds the DNS suffix and checks the region.  A region that
      is not a string cannot be matched and is an error too. */
  function NewDiscovery(settings: Settings): (r: Result<Discovery, Error>)
    ensures r.Success? <==>
              && RegionKey in settings && NetboxKey in settings
              && settings[RegionKey].Text? && IsRegion(settings[RegionKey].s)
    ensures RegionKey !in settings ==> r == Failure(MissingKey(RegionKey))
    ensures RegionKey in settings && NetboxKey in settings && settings[RegionKey].Text?
              && !IsRegion(settings[RegionKey].s) ==>
              r == Failure(InvalidRegion(settings[RegionKey].s))
    ensures r.Success? ==>
              && Valid(r.value)
              && r.value.region == settings[RegionKey].s
              && r.value.netbox == settings[NetboxKey]
  {
    if RegionKey !in settings then Failure(MissingKey(RegionKey))
    else if NetboxKey !in settings then Failure(MissingKey(NetboxKey))
    else if !settings[RegionKey].Text? then Failure(NotText(RegionKey))
    else
      var region := settings[RegionKey].s;
      var suffix := DnsSuffix(region);
      var _ :- CheckRegion(region);
      Success(Discovery(region, settings[NetboxKey], suffix))
  }

  /** The filter keeps a device when its whole name matches the device
      pattern of the region. */
  predicate Selects(d: Discovery, device: Device) {
    IsDeviceName(d.region, device.name)
  }

  /** `filter_devices`: the name plus DNS suffix of every device whose name
      matches, in input order. */
  function Filter(d: Discovery, devices: seq<Device>): (r: seq<string>)
    requires Valid(d)
    ensures |r| <= |devices|
    ensures |devices| == 0 ==> r == []
    ensures forall k :: 0 <= k < |r| ==> |r[k]| == 2 * |d.region| + 27
    decreases |devices|
  {
    if |devices| == 0 then []
    else
      var name := devices[0].name;
      DevicePatternMatches(d.region, name);
      var rest := Filter(d, devices[1..]);
      if FullMatch(DevicePattern(d.region), name) then [name + d.dnsSuffix] + rest else rest
  }

  /** A target is produced exactly when some selected device's name plus the
      suffix spells it: every selected device contributes its target, and
      nothing else is produced. */
  lemma {:induction false} FilterMembers(d: Discovery, devices: seq<Device>, t: string)
    requires Valid(d)
    ensures t in Filter(d, devices) <==>
              exists i :: 0 <= i < |devices| && Selects(d, devices[i]) && t == devices[i].name + d.dnsSuffix
    decreases |devices|
  {
    if |devices| > 0 {
      FilterMembers(d, devices[1..], t);
      DevicePatternMatches(d.region, devices[0].name);
      assert forall i :: 1 <= i < |devices| ==> devices[i] == devices[1..][i - 1];
      if exists i :: 0 <= i < |devices| && Selects(d, devices[i]) && t == devices[i].name + d.dnsSuffix {
        var i :| 0 <= i < |devices| && Selects(d, devices[i]) && t == devices[i].name + d.dnsSuffix;
        if i > 0 {
          assert devices[1..][i - 1] == devices[i];
        }
      }
    }
  }

  lemma {:induction false} FilterAppend(d: Discovery, a: seq<Device>, b: seq<Device>)
    requires Valid(d)
    ensures Filter(d, a + b) == Filter(d, a) + Filter(d, b)
    decreases |a|
  {
    if |a| == 0 {
      assert a + b == b;
    } else {
      assert (a + b)[0] == a[0];
      assert (a + b)[1..] == a[1..] + b;
      FilterAppend(d, a[1..], b);
    }
  }

  /** Filtering one device keeps it exactly when it is selected. */
  lemma FilterOne(d: Discovery, x: Device)
    requires Valid(d)
    ensures Filter(d, [x]) == if Selects(d, x) then [x.name + d.dnsSuffix] else []
  {
    DevicePatternMatches(d.region, x.name);
    assert [x][1..] == [];
  }

  /** A selected device's target sits in the output at the number of targets
      produced before it; a later selected device's target comes later. */
  lemma FilterPreservesOrder(d: Discovery, devices: seq<Device>, i: nat, j: nat)
    requires Valid(d)
    requires i < j < |devices|
    requires Selects(d, devices[i]) && Selects(d, devices[j])
    ensures |Filter(d, devices[..i])| < |Filter(d, devices[..j])| < |Filter(d, devices)|
    ensures Filter(d, devices)[|Filter(d, devices[..i])|] == devices[i].name + d.dnsSuffix
    ensures Filter(d, devices)[|Filter(d, devices[..j])|] == devices[j].name + d.dnsSuffix
  {
    FilterAt(d, devices[..j], i);
    assert devices[..j][..i] == devices[..i];
    FilterAt(d, devices, i);
    FilterAt(d, devices, j);
  }

  lemma FilterAt(d: Discovery, devices: seq<Device>, i: nat)
    requires Valid(d)
    requires i < |devices| && Selects(d, devices[i])
    ensures |Filter(d, devices[..i])| < |Filter(d, devices)|
    ensures Filter(d, devices)[|Filter(d, devices[..i])|] == devices[i].name + d.dnsSuffix
  {
    assert devices == devices[..i] + [devices[i]] + devices[i + 1..];
    FilterAppend(d, devices[..i] + [devices[i]], devices[i + 1..]);
    FilterAppend(d, devices[..i], [devices[i]]);
    FilterOne(d, devices[i]);
  }

  /** Reordering the inventory reorders the targets and changes nothing else. */
  lemma {:induction false} FilterPermutation(d: Discovery, a: seq<Device>, b: seq<Device>)
    requires Valid(d)
    requires multiset(a) == multiset(b)
    ensures multiset(Filter(d, a)) == multiset(Filter(d, b))
    decreases |a|
  {
    if |a| == 0 {
      assert |b| == 0;
    } else {
      assert a[0] in multiset(b);
      var k :| 0 <= k < |b| && b[k] == a[0];
      var b' := b[..k] + b[k + 1..];
      RemoveFirstMatch(a, b, k);
      FilterPermutation(d, a[1..], b');
      FilterAppend(d, [a[0]], a[1..]);
      assert a == [a[0]] + a[1..];
      FilterWithout(d, b, k);
    }
  }

  /** Taking the first element of `a` out of `a`, and one occurrence of it out
      of `b`, keeps the two multisets equal. */
  lemma RemoveFirstMatch(a: seq<Device>, b: seq<Device>, k: nat)
    requires multiset(a) == multiset(b) && |a| > 0
    requires k < |b| && b[k] == a[0]
    ensures multiset(a[1..]) == multiset(b[..k] + b[k + 1..])
  {
    var x := a[0];
    assert a == [x] + a[1..];
    assert b == b[..k] + [x] + b[k + 1..];
    assert multiset(a) == multiset([x]) + multiset(a[1..]);
    assert multiset(b) == multiset(b[..k]) + multiset([x]) + multiset(b[k + 1..]);
    var rest := b[..k] + b[k + 1..];
    assert multiset(rest) == multiset(b[..k]) + multiset(b[k + 1..]);
    forall e
      ensures multiset(a[1..])[e] == multiset(rest)[e]
    {
      assert (multiset([x]) + multiset(a[1..]))[e] == (multiset([x]) + multiset(rest))[e];
    }
  }

  /** The targets of `b` are those of `b[k]` and those of `b` without it. */
  lemma FilterWithout(d: Discovery, b: seq<Device>, k: nat)
    requires Valid(d) && k < |b|
    ensures multiset(Filter(d, b)) == multiset(Filter(d, [b[k]])) + multiset(Filter(d, b[..k] + b[k + 1..]))
  {
    assert b == b[..k] + [b[k]] + b[k + 1..];
    FilterAppend(d, b[..k] + [b[k]], b[k + 1..]);
    FilterAppend(d, b[..k], [b[k]]);
    FilterAppend(d, b[..k], b[k + 1..]);
  }

  /** Filtering three devices of which the first two are selected. */
  lemma FilterThree(d: Discovery, x: Device, y: Device, z: Device)
    requires Valid(d)
    requires Selects(d, x) && Selects(d, y) && !Selects(d, z)
    ensures Filter(d, [x, y, z]) == [x.name + d.dnsSuffix, y.name + d.dnsSuffix]
  {
    FilterOne(d, x);
    FilterOne(d, y);
    FilterOne(d, z);
    FilterAppend(d, [x], [y]);
    FilterAppend(d, [x, y], [z]);
    assert [x] + [y] == [x, y];
    assert [x, y] + [z] == [x, y, z];
  }

  /** The example of a region with two matching switches and one other host. */
  lemma FilterExample(d: Discovery, x: Device, y: Device, z: Device)
    requires Valid(d) && d.region == "qa-de-1"
    requires x.name == "qa-de-1-asw201-bm001"
    requires y.name == "qa-de-1-asw202-bm999"
    requires z.name == "other-host"
    ensures Filter(d, [x, y, z])
              == ["qa-de-1-asw201-bm001.cc.qa-de-1.cloud.sap", "qa-de-1-asw202-bm999.cc.qa-de-1.cloud.sap"]
  {
    ExampleSelected(d, x, '1', '0', '0', '1');
    ExampleSelected(d, y, '2', '9', '9', '9');
    ExampleNotSelected(d, z);
    FilterThree(d, x, y, z);
    ExampleTargets();
  }

  lemma ExampleNotSelected(d: Discovery, z: Device)
    requires Valid(d) && d.region == "qa-de-1"
    requires z.name == "other-host"
    ensures !Selects(d, z)
  {
  }

  lemma ExampleTargets()
    ensures "qa-de-1-asw201-bm001" + DnsSuffix("qa-de-1") == "qa-de-1-asw201-bm001.cc.qa-de-1.cloud.sap"
    ensures "qa-de-1-asw202-bm999" + DnsSuffix("qa-de-1") == "qa-de-1-asw202-bm999.cc.qa-de-1.cloud.sap"
  {
  }

  lemma ExampleSelected(d: Discovery, x: Device, g: char, a: char, b: char, c: char)
    requires Valid(d) && IsDigit(g) && IsDigit(a) && IsDigit(b) && IsDigit(c)
    requires x.name == d.region + "-asw20" + [g] + "-bm" + [a, b, c]
    ensures Selects(d, x)
  {
    BuiltNameIsDeviceName(d.region, g, a, b, c);
  }
}
