/** The status badges of the inscription, student and dashboard tables. */
module Badges {

  /** The `variant` of a `Badge`. */
  datatype Variant = Default | Secondary | Destructive

  /**
   * The inscription status badge (also used by the dashboard's recent list):
   * "termine" is default, "abandon" destructive, anything else secondary.
   */
  function InscriptionBadge(statut: string): (v: Variant)
    ensures v == Default <==> statut == "termine"
    ensures v == Destructive <==> statut == "abandon"
    ensures v == Secondary <==> statut != "termine" && statut != "abandon"
  {
    if statut == "termine" then Default
    else if statut == "abandon" then Destructive
    else Secondary
  }

  /**
   * `statutBadge`: the lookup table `{ actif, inactif, suspendu }` with
   * "secondary" for a status the table does not list.
   */
  function StudentBadge(statut: string): (v: Variant)
    ensures v == Default <==> statut == "actif"
    ensures v == Destructive <==> statut == "inactif"
    ensures v == Secondary <==> statut != "actif" && statut != "inactif"
  {
    var table := map["actif" := Default, "inactif" := Destructive, "suspendu" := Secondary];
    if statut in table then table[statut] else Secondary
  }
}
