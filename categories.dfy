/**
 * The four delay categories and clasifica_categoria, which is the same in
 * DIAN_VA/utils/logic.py and app.py.
 */
module Categories {

  /** Ordered as the dashboards sort them: Al día < Atraso normal < Atraso medio < Atraso alto. */
  datatype Category = AlDia | AtrasoNormal | AtrasoMedio | AtrasoAlto {
    function Rank(): nat {
      match this
      case AlDia => 0
      case AtrasoNormal => 1
      case AtrasoMedio => 2
      case AtrasoAlto => 3
    }

    function Label(): string {
      match this
      case AlDia => "Al día"
      case AtrasoNormal => "Atraso normal"
      case AtrasoMedio => "Atraso medio"
      case AtrasoAlto => "Atraso alto"
    }
  }

  /** The category order of the bar chart and of the summary table. */
  const ORDER: seq<Category> := [AlDia, AtrasoNormal, AtrasoMedio, AtrasoAlto]

  /** The largest backlog still counted as a normal, and as a medium, delay. */
  datatype Limits = Limits(normal: int, medium: int)

  /** Supervisores has its own cut-offs; every other name, known or not, gets the light ones. */
  function LimitsFor(modulo: string): Limits {
    if modulo == "Supervisores" then Limits(68, 101) else Limits(10, 34)
  }

  /**
   * clasifica_categoria: a negative backlog (ahead of quota) is on time, and the
   * four categories split the integers into consecutive intervals.
   */
  function Classify(atraso: int, modulo: string): (c: Category)
    ensures c == AlDia <==> atraso < 0
    ensures c == AtrasoNormal <==> 0 <= atraso <= LimitsFor(modulo).normal
    ensures c == AtrasoMedio <==> LimitsFor(modulo).normal < atraso <= LimitsFor(modulo).medium
    ensures c == AtrasoAlto <==> LimitsFor(modulo).medium < atraso
  {
    if modulo == "Supervisores" then
      if atraso < 0 then AlDia
      else if atraso <= 68 then AtrasoNormal
      else if atraso <= 101 then AtrasoMedio
      else AtrasoAlto
    else
      if atraso < 0 then AlDia
      else if atraso <= 10 then AtrasoNormal
      else if atraso <= 34 then AtrasoMedio
      else AtrasoAlto
  }

  /** A larger backlog never gives an earlier category. */
  lemma ClassifyMonotone(a: int, b: int, modulo: string)
    requires a <= b
    ensures Classify(a, modulo).Rank() <= Classify(b, modulo).Rank()
  {
  }

  /** Labels tell categories apart, so comparing labels is comparing categories. */
  lemma LabelInjective(c: Category, d: Category)
    ensures c.Label() == d.Label() <==> c == d
  {
  }

  /** The exact boundaries for Supervisores. */
  lemma SupervisorBoundaries()
    ensures Classify(-1, "Supervisores") == AlDia && Classify(0, "Supervisores") == AtrasoNormal
    ensures Classify(68, "Supervisores") == AtrasoNormal && Classify(69, "Supervisores") == AtrasoMedio
    ensures Classify(101, "Supervisores") == AtrasoMedio && Classify(102, "Supervisores") == AtrasoAlto
  {
  }

  /** The exact boundaries for any other name, and the four cases of the repository's test. */
  lemma LightBoundaries(modulo: string)
    requires modulo != "Supervisores"
    ensures Classify(-1, modulo) == AlDia && Classify(0, modulo) == AtrasoNormal
    ensures Classify(10, modulo) == AtrasoNormal && Classify(11, modulo) == AtrasoMedio
    ensures Classify(34, modulo) == AtrasoMedio && Classify(35, modulo) == AtrasoAlto
    ensures Classify(5, modulo) == AtrasoNormal && Classify(20, modulo) == AtrasoMedio && Classify(50, modulo) == AtrasoAlto
  {
  }
}
