/** The two order-status vocabularies: the exchange's (`wait`, `done`, `cancel`) and the
    unified one (`open`, `closed`, `canceled`). Any other word is passed through as it is. */
module OrderStatus {

  /** The table in `parse_order_status`. */
  const UpstreamToUnified: map<string, string> :=
    map["wait" := "open", "done" := "closed", "cancel" := "canceled"]

  /** The table in `parse_order_status_re`. */
  const UnifiedToUpstream: map<string, string> :=
    map["open" := "wait", "closed" := "done", "canceled" := "cancel"]

  /** `parse_order_status`: upstream word to unified word. */
  function ParseOrderStatus(status: string): string
  {
    if status in UpstreamToUnified then UpstreamToUnified[status] else status
  }

  /** `parse_order_status_re`: unified word back to upstream word. */
  function ParseOrderStatusRe(status: string): string
  {
    if status in UnifiedToUpstream then UnifiedToUpstream[status] else status
  }

  /** The two tables are each other's inverse. */
  lemma TablesInverse()
    ensures UnifiedToUpstream.Keys == UpstreamToUnified.Values
    ensures UpstreamToUnified.Keys == UnifiedToUpstream.Values
    ensures forall s :: s in UpstreamToUnified ==> UnifiedToUpstream[UpstreamToUnified[s]] == s
    ensures forall s :: s in UnifiedToUpstream ==> UpstreamToUnified[UnifiedToUpstream[s]] == s
  {
    assert UpstreamToUnified.Values == {"open", "closed", "canceled"} by {
      assert UpstreamToUnified["wait"] == "open";
      assert UpstreamToUnified["done"] == "closed";
      assert UpstreamToUnified["cancel"] == "canceled";
    }
    assert UnifiedToUpstream.Values == {"wait", "done", "cancel"} by {
      assert UnifiedToUpstream["open"] == "wait";
      assert UnifiedToUpstream["closed"] == "done";
      assert UnifiedToUpstream["canceled"] == "cancel";
    }
  }

  /** The three translations, and passthrough of every other word. */
  lemma StatusTranslation(s: string)
    ensures ParseOrderStatus("wait") == "open"
    ensures ParseOrderStatus("done") == "closed"
    ensures ParseOrderStatus("cancel") == "canceled"
    ensures s !in {"wait", "done", "cancel"} ==> ParseOrderStatus(s) == s
    ensures ParseOrderStatusRe("open") == "wait"
    ensures ParseOrderStatusRe("closed") == "done"
    ensures ParseOrderStatusRe("canceled") == "cancel"
    ensures s !in {"open", "closed", "canceled"} ==> ParseOrderStatusRe(s) == s
  {
  }

  /** Sending a unified status upstream and reading it back gives it back, for every word
      except the three upstream words themselves (which come back translated). */
  lemma StatusRoundTrip(s: string)
    ensures ParseOrderStatus(ParseOrderStatusRe(s)) == s <==> s !in {"wait", "done", "cancel"}
  {
    if s in {"wait", "done", "cancel"} {
      assert ParseOrderStatusRe(s) == s;
    }
  }

  /** Reading an upstream status and sending it back gives it back, for every word
      except the three unified words themselves. */
  lemma StatusReverseRoundTrip(s: string)
    ensures ParseOrderStatusRe(ParseOrderStatus(s)) == s <==> s !in {"open", "closed", "canceled"}
  {
    if s in {"open", "closed", "canceled"} {
      assert ParseOrderStatus(s) == s;
    }
  }
}
