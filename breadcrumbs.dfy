/**
 * A breadcrumb as Yii's Breadcrumbs widget takes it: a label and an
 * optional URL. A crumb given as a bare string is a label without a URL.
 */
module Breadcrumbs {

  import opened Wrappers

  datatype Crumb = Crumb(text: string, url: Option<string>)

  /**
   * `$this->view->params['breadcrumbs'][] = $crumb` for each crumb in turn:
   * the crumbs end up after the existing ones, in their order.
   */
  method AppendCrumbs(existing: seq<Crumb>, more: seq<Crumb>) returns (crumbs: seq<Crumb>)
    ensures crumbs == existing + more
  {
    crumbs := existing;
    var i := 0;
    while i < |more|
      invariant 0 <= i <= |more|
      invariant crumbs == existing + more[..i]
    {
      crumbs := crumbs + [more[i]];
      i := i + 1;
    }
    assert more[..i] == more;
  }
}
