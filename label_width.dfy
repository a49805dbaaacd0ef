/** The start-up choice of `label_width` in printit.py. */
module LabelWidth {
  import opened Wrappers
  import opened Printers

  /**
   * The printable width of the first catalog label named `labelType`, or
   * that of the catalog's first label when none is.
   */
  method SelectLabelWidth(labels: seq<LabelSpec>, labelType: string) returns (width: int)
    requires |labels| > 0
    ensures GetLabelWidth(labels, labelType).Some? ==> width == GetLabelWidth(labels, labelType).value
    ensures GetLabelWidth(labels, labelType).None? ==> width == labels[0].printableWidth
  {
    width := labels[0].printableWidth;
    for i := 0 to |labels|
      invariant forall j :: 0 <= j < i ==> labels[j].identifier != labelType
    {
      if labels[i].identifier == labelType {
        width := labels[i].printableWidth;
        assert FirstLabel(labels, labelType) == Some(i);
        return;
      }
    }
  }
}
