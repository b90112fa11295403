/** Which paths are VM configuration files: `nodes/<node>/{qemu-server,openvz,lxc}/<vmid>.conf`. */
module VmConfig {
  import opened Bytes
  import opened MemTree

  const NODES: Name := [110, 111, 100, 101, 115]
  const QEMU_SERVER: Name := [113, 101, 109, 117, 45, 115, 101, 114, 118, 101, 114]
  const OPENVZ: Name := [111, 112, 101, 110, 118, 122]
  const LXC: Name := [108, 120, 99]
  const CONF: Name := [46, 99, 111, 110, 102]

  datatype VmType = Qemu | OpenVz | Lxc
  datatype VmInfo = VmInfo(vmtype: VmType, node: Name)

  predicate IsDigit(b: byte) {
    48 <= b <= 57
  }

  function DigitRun(s: Name): (n: nat)
    ensures n <= |s| && (n < |s| ==> !IsDigit(s[n]))
    ensures forall i :: 0 <= i < n ==> IsDigit(s[i])
  {
    if s == [] || !IsDigit(s[0]) then 0 else 1 + DigitRun(s[1..])
  }

  function Decimal(ds: Name): int {
    if ds == [] then 0 else 10 * Decimal(ds[..|ds| - 1]) + (ds[|ds| - 1] as int - 48)
  }

  /** `name_is_vm_config`: a decimal number below 2^32 without leading zero, then `.conf`. */
  function NameVmid(name: Name): Option<int> {
    if name == [] || !(49 <= name[0] <= 57) then None else
      var n := DigitRun(name);
      var v := Decimal(name[..n]);
      if name[n..] == CONF && v < 0x1_0000_0000 then Some(v) else None
  }

  predicate ValidNodeName(s: Name) {
    s != [] && forall i :: 0 <= i < |s| ==>
      || 65 <= s[i] <= 90 || 97 <= s[i] <= 122 || IsDigit(s[i])
      || (i != 0 && i != |s| - 1 && s[i] == 45)
  }

  /** `dir_contain_vm_config` */
  function DirVm(dir: Path): Option<VmInfo> {
    if |dir| != 3 || dir[0] != NODES || !ValidNodeName(dir[1]) then None
    else if dir[2] == QEMU_SERVER then Some(VmInfo(Qemu, dir[1]))
    else if dir[2] == OPENVZ then Some(VmInfo(OpenVz, dir[1]))
    else if dir[2] == LXC then Some(VmInfo(Lxc, dir[1]))
    else None
  }

  /** `path_contain_vm_config` */
  function PathVm(p: Path): Option<(int, VmInfo)> {
    if p == [] then None else
      match (NameVmid(p[|p| - 1]), DirVm(p[..|p| - 1]))
      case (Some(v), Some(i)) => Some((v, i))
      case _ => None
  }

  ghost predicate Digits(ds: Name) {
    && (forall i :: 0 <= i < |ds| ==> IsDigit(ds[i]))
    && (ds != [] ==> ds[0] != 48)
  }

  lemma {:induction false} DecimalPositive(ds: Name)
    requires Digits(ds)
    ensures Decimal(ds) >= 0 && (ds != [] ==> Decimal(ds) > 0)
  {
    if ds != [] {
      var n := |ds| - 1;
      DecimalPositive(ds[..n]);
    }
  }

  /** A number has one decimal form without leading zero. */
  lemma {:induction false} DecimalInjective(a: Name, b: Name)
    requires Digits(a) && Digits(b) && Decimal(a) == Decimal(b)
    ensures a == b
  {
    DecimalPositive(a);
    DecimalPositive(b);
    if a != [] {
      var n, k := |a| - 1, |b| - 1;
      DecimalInjective(a[..n], b[..k]);
      assert a == a[..n] + [a[n]] && b == b[..k] + [b[k]];
    }
  }

  // ---------------------------------------------------------------------------------------
  // What a VM configuration file is, in text
  // ---------------------------------------------------------------------------------------

  /** The decimal form of a number; that of 0 has no digit. */
  function Numeral(v: nat): Name {
    if v == 0 then [] else Numeral(v / 10) + [(48 + v % 10) as byte]
  }

  lemma {:induction false} NumeralDigits(v: nat)
    ensures Digits(Numeral(v)) && Decimal(Numeral(v)) == v && (v > 0 ==> Numeral(v) != [])
  {
    if v > 0 {
      NumeralDigits(v / 10);
      var ds := Numeral(v / 10);
      var d := (48 + v % 10) as byte;
      assert (ds + [d])[..|ds|] == ds;
    }
  }

  lemma {:induction false} NumeralOnly(ds: Name)
    requires Digits(ds)
    ensures Decimal(ds) >= 0 && Numeral(Decimal(ds)) == ds
  {
    DecimalPositive(ds);
    NumeralDigits(Decimal(ds));
    DecimalInjective(Numeral(Decimal(ds)), ds);
  }

  /** The name of a configuration file is the decimal form of its number, then `.conf`. */
  lemma {:induction false} NameVmidExact(name: Name, v: int)
    ensures NameVmid(name) == Some(v) <==> 0 < v < 0x1_0000_0000 && name == Numeral(v) + Ascii(".conf")
  {
    hide Decimal, Numeral;
    assert Ascii(".conf") == CONF;
    if NameVmid(name) == Some(v) {
      var n := DigitRun(name);
      DecimalPositive(name[..n]);
      NumeralOnly(name[..n]);
      assert name == name[..n] + name[n..];
    }
    if 0 < v < 0x1_0000_0000 && name == Numeral(v) + Ascii(".conf") {
      NumeralDigits(v);
      var ds := Numeral(v);
      assert name[..|ds|] == ds && name[|ds|..] == CONF && name[0] == ds[0];
    }
  }

  /** A node name consists of letters, digits and hyphens, and has no hyphen at either end. */
  lemma {:induction false} NodeNameExact(s: Name)
    ensures ValidNodeName(s) <==>
      && s != [] && s[0] != '-' as byte && s[|s| - 1] != '-' as byte
      && forall b :: b in s ==> || 'A' as byte <= b <= 'Z' as byte || 'a' as byte <= b <= 'z' as byte
                                || '0' as byte <= b <= '9' as byte || b == '-' as byte
  {
    if ValidNodeName(s) {
      forall b | b in s
        ensures 65 <= b <= 90 || 97 <= b <= 122 || 48 <= b <= 57 || b == 45
      {
        var i :| 0 <= i < |s| && s[i] == b;
      }
    }
    assert forall i :: 0 <= i < |s| ==> s[i] in s;
  }

  /** Exactly the paths `nodes/<node>/<directory of the type>/<number>.conf` stand for a VM. */
  lemma {:induction false} PathVmExact(p: Path, v: int, ty: VmType, node: Name)
    ensures PathVm(p) == Some((v, VmInfo(ty, node))) <==>
      && |p| == 4 && p[0] == Ascii("nodes") && p[1] == node && ValidNodeName(node)
      && (ty == Qemu ==> p[2] == Ascii("qemu-server"))
      && (ty == OpenVz ==> p[2] == Ascii("openvz"))
      && (ty == Lxc ==> p[2] == Ascii("lxc"))
      && 0 < v < 0x1_0000_0000 && p[3] == Numeral(v) + Ascii(".conf")
  {
    hide NameVmid, ValidNodeName, Numeral;
    assert Ascii("nodes") == NODES && Ascii("qemu-server") == QEMU_SERVER;
    assert Ascii("openvz") == OPENVZ && Ascii("lxc") == LXC;
    if p != [] {
      NameVmidExact(p[|p| - 1], v);
    }
    if |p| == 4 {
      assert p[..3][0] == p[0] && p[..3][1] == p[1] && p[..3][2] == p[2];
    }
  }

  lemma {:induction false} NameVmidInjective(a: Name, b: Name)
    requires NameVmid(a).Some? && NameVmid(a) == NameVmid(b)
    ensures a == b
  {
    hide Decimal;
    var n, k := DigitRun(a), DigitRun(b);
    DecimalInjective(a[..n], b[..k]);
    assert a == a[..n] + a[n..] && b == b[..k] + b[k..];
  }

  /** No two paths stand for the same VM in the same place. */
  lemma {:induction false} PathVmInjective(p: Path, q: Path)
    requires PathVm(p).Some? && PathVm(p) == PathVm(q)
    ensures p == q
  {
    hide NameVmid, ValidNodeName;
    NameVmidInjective(p[|p| - 1], q[|q| - 1]);
    assert |p| == 4 && |q| == 4;
    assert p[..3][0] == p[0] && p[..3][1] == p[1] && p[..3][2] == p[2];
    assert q[..3][0] == q[0] && q[..3][1] == q[1] && q[..3][2] == q[2];
  }
}
