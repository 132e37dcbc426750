/** `label` (runcardsrunner/info.py): the classification of a dataset into
    colour, runner and kind. The three membership tests belong to the
    runners and are parameters here. */
module Info {
  datatype External = Yadism | Positivity | Vrap | Mg5

  datatype Kind = Dis | PositivityKind | Ftdy | Hadronic

  datatype Info = Info(color: string, external: External, kind: Kind)

  /** The membership tests, asked in this order. */
  datatype Classifiers = Classifiers(isDis: string -> bool, isPositivity: string -> bool, isVrap: string -> bool)

  function Label(dataset: string, cls: Classifiers): Info
  {
    if cls.isDis(dataset) then Info("red", Yadism, Dis)
    else if cls.isPositivity(dataset) then Info("yellow", Positivity, PositivityKind)
    else if cls.isVrap(dataset) then Info("green", Vrap, Ftdy)
    else Info("blue", Mg5, Hadronic)
  }

  /** Each outcome, with the tests that decide it: a test counts only when
      every earlier test failed. */
  lemma LabelPriority(dataset: string, cls: Classifiers)
    ensures Label(dataset, cls).kind == Dis <==> cls.isDis(dataset)
    ensures Label(dataset, cls).kind == PositivityKind <==> !cls.isDis(dataset) && cls.isPositivity(dataset)
    ensures Label(dataset, cls).kind == Ftdy <==>
      !cls.isDis(dataset) && !cls.isPositivity(dataset) && cls.isVrap(dataset)
    ensures Label(dataset, cls).kind == Hadronic <==>
      !cls.isDis(dataset) && !cls.isPositivity(dataset) && !cls.isVrap(dataset)
  {
  }

  /** The colour of each kind. */
  function KindColor(k: Kind): string
  {
    match k
    case Dis => "red"
    case PositivityKind => "yellow"
    case Ftdy => "green"
    case Hadronic => "blue"
  }

  /** Colour, runner and kind determine each other: any two labels agree on
      one exactly when they agree on the others. */
  lemma ColorKindOneToOne(d1: string, c1: Classifiers, d2: string, c2: Classifiers)
    ensures Label(d1, c1).color == KindColor(Label(d1, c1).kind)
    ensures Label(d1, c1).kind == Label(d2, c2).kind <==> Label(d1, c1).color == Label(d2, c2).color
    ensures Label(d1, c1).kind == Label(d2, c2).kind <==> Label(d1, c1).external == Label(d2, c2).external
  {
  }
}
