/**
 * The recipe completion statuses of config.py: three integer constants and
 * the table of labels that the status column of RecipeAccount draws from.
 */
module Config {
  import opened Wrappers

  const ZERO: int := 0
  const OWNED: int := 1
  const COOKED: int := 2

  /** The label shown for each status code. */
  const STATUS_CHOICES: map<int, string> := map[0 := "Not Owned", 1 := "Owned", 2 := "Cooked"]

  /** The three statuses as a closed enumeration. */
  datatype Status = NotOwned | Owned | Cooked

  /** The integer code a status is stored as. */
  function Code(s: Status): (c: int)
    ensures c in STATUS_CHOICES
    ensures c == ZERO <==> s == NotOwned
    ensures c == OWNED <==> s == Owned
    ensures c == COOKED <==> s == Cooked
  {
    match s
    case NotOwned => ZERO
    case Owned => OWNED
    case Cooked => COOKED
  }

  /** The label STATUS_CHOICES gives a status. */
  function Label(s: Status): (l: string)
    ensures Code(s) in STATUS_CHOICES && l == STATUS_CHOICES[Code(s)]
  {
    match s
    case NotOwned => "Not Owned"
    case Owned => "Owned"
    case Cooked => "Cooked"
  }

  /** Reads a stored code back as a status; codes outside STATUS_CHOICES give None. */
  function FromCode(c: int): (r: Option<Status>)
    ensures r.Some? <==> c in STATUS_CHOICES
    ensures r.Some? ==> Code(r.value) == c
  {
    if c == ZERO then Some(NotOwned)
    else if c == OWNED then Some(Owned)
    else if c == COOKED then Some(Cooked)
    else None
  }

  /** Reads a label back as a status; a string that is not a label gives None. */
  function FromLabel(l: string): (r: Option<Status>)
    ensures r.Some? ==> Label(r.value) == l
    ensures r.None? ==> forall s: Status :: Label(s) != l
  {
    if l == "Not Owned" then Some(NotOwned)
    else if l == "Owned" then Some(Owned)
    else if l == "Cooked" then Some(Cooked)
    else None
  }

  /** The keys of STATUS_CHOICES are exactly 0, 1 and 2, the three constants. */
  lemma ChoicesDomain()
    ensures STATUS_CHOICES.Keys == {ZERO, OWNED, COOKED}
    ensures ZERO == 0 && OWNED == 1 && COOKED == 2
    ensures forall c: int :: c in STATUS_CHOICES <==> 0 <= c <= 2
  {
  }

  /** The labels named in config.py, one per constant. */
  lemma ChoicesLabels()
    ensures STATUS_CHOICES[ZERO] == "Not Owned"
    ensures STATUS_CHOICES[OWNED] == "Owned"
    ensures STATUS_CHOICES[COOKED] == "Cooked"
  {
  }

  /** Status codes round-trip: every status is stored under a code that reads back as itself. */
  lemma CodeRoundTrip(s: Status, c: int)
    ensures FromCode(Code(s)) == Some(s)
    ensures FromCode(c).Some? ==> Code(FromCode(c).value) == c
  {
  }

  /** The three labels are pairwise distinct, so a label names a unique status. */
  lemma LabelInjective(s: Status, t: Status)
    ensures Label(s) == Label(t) ==> s == t
    ensures FromLabel(Label(s)) == Some(s)
  {
  }
}
