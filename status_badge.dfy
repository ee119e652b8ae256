/**
 * The status badge and status dot (src/components/StatusBadge.tsx): two
 * constant lookup tables indexed by a status.
 */
module StatusBadge {
  import opened Types

  datatype BadgeConfig = BadgeConfig(variant: Variant, labelText: string)

  /**
   * The `variants` table of `StatusBadge`: every status is shown in a
   * colour of its own, never the plain default badge, and with a label.
   */
  function BadgeFor(status: Status): (config: BadgeConfig)
    ensures config.variant != Default && config.labelText != ""
    ensures config.variant == Success <==> status == Up
    ensures config.variant == Destructive <==> status == Down
  {
    match status
    case Up => BadgeConfig(Success, "Up")
    case Down => BadgeConfig(Destructive, "Down")
    case Warning => BadgeConfig(WarningVariant, "Warning")
  }

  /** The `colors` table of `StatusDot`: a shade-500 background class. */
  function DotColor(status: Status): (color: string)
    ensures |color| > 7 && color[..3] == "bg-" && color[|color| - 4..] == "-500"
  {
    match status
    case Up => "bg-green-500"
    case Down => "bg-red-500"
    case Warning => "bg-yellow-500"
  }

  const DotBaseClass: string := "inline-block w-2 h-2 rounded-full "

  /** The class attribute of the dot's `span`. */
  function DotClass(status: Status): (cls: string)
    ensures |cls| > |DotBaseClass| && cls[..|DotBaseClass|] == DotBaseClass
    ensures cls[|DotBaseClass|..] == DotColor(status)
  {
    DotBaseClass + DotColor(status)
  }

  /** Both tables are total: every status has a variant and label, and a colour. */
  lemma Tables()
    ensures BadgeFor(Up) == BadgeConfig(Success, "Up") && DotColor(Up) == "bg-green-500"
    ensures BadgeFor(Down) == BadgeConfig(Destructive, "Down") && DotColor(Down) == "bg-red-500"
    ensures BadgeFor(Warning) == BadgeConfig(WarningVariant, "Warning") && DotColor(Warning) == "bg-yellow-500"
  {
  }

  /** Reads a badge label back to the status it stands for. */
  function StatusOfLabel(text: string): Option<Status>
  {
    if text == "Up" then Some(Up)
    else if text == "Down" then Some(Down)
    else if text == "Warning" then Some(Warning)
    else None
  }

  /** Reads a dot class back to the status it stands for. */
  function StatusOfDotClass(cls: string): Option<Status>
  {
    if |cls| < |DotBaseClass| || cls[..|DotBaseClass|] != DotBaseClass then None
    else
      var color := cls[|DotBaseClass|..];
      if color == "bg-green-500" then Some(Up)
      else if color == "bg-red-500" then Some(Down)
      else if color == "bg-yellow-500" then Some(Warning)
      else None
  }

  /** The badge label identifies its status: the labels are pairwise distinct. */
  lemma LabelIdentifiesStatus(status: Status)
    ensures StatusOfLabel(BadgeFor(status).labelText) == Some(status)
  {
  }

  /** The dot class identifies its status: the colours are pairwise distinct. */
  lemma DotClassIdentifiesStatus(status: Status)
    ensures StatusOfDotClass(DotClass(status)) == Some(status)
  {
    assert DotClass(status)[|DotBaseClass|..] == DotColor(status);
  }

  /** Distinct statuses get distinct labels, variants and dot colours. */
  lemma TablesInjective(s1: Status, s2: Status)
    requires s1 != s2
    ensures BadgeFor(s1).labelText != BadgeFor(s2).labelText
    ensures BadgeFor(s1).variant != BadgeFor(s2).variant
    ensures DotColor(s1) != DotColor(s2)
    ensures DotClass(s1) != DotClass(s2)
  {
    LabelIdentifiesStatus(s1);
    LabelIdentifiesStatus(s2);
    DotClassIdentifiesStatus(s1);
    DotClassIdentifiesStatus(s2);
  }
}
