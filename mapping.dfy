/**
 * The port mapping of one Service port: source port, node port and protocol, with its
 * textual forms.
 */
module PortMapping {
  import Decimal
  import Strings

  /** Kubernetes' `int32` port fields. */
  newtype int32 = x: int | -0x8000_0000 <= x < 0x8000_0000

  /** `corev1.ServicePort`, reduced to the fields read here. */
  datatype ServicePort = ServicePort(port: int32, nodePort: int32, protocol: string)

  /** `Mapping`: Go `int` ports, modelled as unbounded integers. */
  datatype Mapping = Mapping(sourcePort: int, nodePort: int, protocol: string)

  /** `NewMapping`: the service port's port, node port and protocol, unchanged. */
  function NewMapping(servicePort: ServicePort): (m: Mapping)
    ensures m.sourcePort == servicePort.port as int && m.nodePort == servicePort.nodePort as int
    ensures m.protocol == servicePort.protocol
    ensures -0x8000_0000 <= m.sourcePort < 0x8000_0000 && -0x8000_0000 <= m.nodePort < 0x8000_0000
  {
    Mapping(servicePort.port as int, servicePort.nodePort as int, servicePort.protocol)
  }

  /** `formatPort`: base-10, no leading zeros, '-' for negative values. */
  function FormatPort(port: int): string {
    Decimal.FormatInt(port)
  }

  /** Distinct ports never give the same string. */
  lemma FormatPortInjective(p: int, q: int)
    requires FormatPort(p) == FormatPort(q)
    ensures p == q
  {
    Decimal.FormatIntInjective(p, q);
  }

  /** `Mapping.String()`: "protocol/sourcePort->nodePort". */
  function String(m: Mapping): string {
    m.protocol + "/" + Decimal.FormatInt(m.sourcePort) + "->" + Decimal.FormatInt(m.nodePort)
  }

  lemma NoCharInDecimal(x: int, c: char)
    requires !Decimal.IsDigit(c) && c != '-'
    ensures c !in Decimal.FormatInt(x)
  {
  }

  /** The text of a mapping identifies it, as long as protocols hold no '/'. */
  lemma StringInjective(m1: Mapping, m2: Mapping)
    requires '/' !in m1.protocol && '/' !in m2.protocol
    requires String(m1) == String(m2)
    ensures m1 == m2
  {
    var s1, n1 := Decimal.FormatInt(m1.sourcePort), Decimal.FormatInt(m1.nodePort);
    var s2, n2 := Decimal.FormatInt(m2.sourcePort), Decimal.FormatInt(m2.nodePort);
    NoCharInDecimal(m1.sourcePort, '/');
    NoCharInDecimal(m2.sourcePort, '/');
    NoCharInDecimal(m1.sourcePort, '>');
    NoCharInDecimal(m2.sourcePort, '>');
    assert String(m1) == m1.protocol + ['/'] + (s1 + "->" + n1);
    assert String(m2) == m2.protocol + ['/'] + (s2 + "->" + n2);
    Strings.SameAtFirst(m1.protocol, s1 + "->" + n1, m2.protocol, s2 + "->" + n2, '/');
    assert s1 + "->" + n1 == (s1 + "-") + ['>'] + n1;
    assert s2 + "->" + n2 == (s2 + "-") + ['>'] + n2;
    assert '>' !in s1 + "-" && '>' !in s2 + "-";
    Strings.SameAtFirst(s1 + "-", n1, s2 + "-", n2, '>');
    assert s1 == (s1 + "-")[..|s1|];
    assert |s1| == |s2|;
    assert s2 == (s2 + "-")[..|s2|];
    Decimal.FormatIntInjective(m1.sourcePort, m2.sourcePort);
    Decimal.FormatIntInjective(m1.nodePort, m2.nodePort);
  }
}
