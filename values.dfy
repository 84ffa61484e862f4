/** Small value types shared by every module of the rack-resiliency model. */
module Values {

  datatype Option<+T> = None | Some(value: T) {
    function GetOr(default: T): T {
      match this
      case Some(v) => v
      case None => default
    }
  }

  /** What a topology mapper hands to its callers: an `{"error": msg}` record, an
      "unconfigured" sentinel string, or the per-zone mapping itself. */
  datatype Source<+T> = Failed(msg: string) | Unconfigured(text: string) | Configured(data: T)

  /** The outcome of a call into an external API: the value it returned, or the failure it
      reported. For a Kubernetes call that is the text of the exception its caller catches;
      for the Ceph tree and host list it is the "error" entry of a parsed reply. */
  datatype ApiResult<+T> = ApiFault(reason: string) | ApiOk(value: T)

  /** Python's `s.startswith(prefix)`. */
  predicate StartsWith(s: string, prefix: string) {
    |prefix| <= |s| && s[..|prefix|] == prefix
  }
}
