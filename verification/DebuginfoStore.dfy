/** The store's handlers over a bucket of metadata objects; each is one call of the protocol. */
module DebuginfoStores {
  import opened Options
  import opened DebuginfoProtocol

  /** Where the metadata of a build id lies; source maps share their place with plain debuginfos. */
  datatype MetadataPath = ExecutableMetadata(buildId: string) | SourcesMetadata(buildId: string)
    | PlainMetadata(buildId: string)

  function MetadataObjectPath(buildId: string, typ: DebuginfoType): MetadataPath {
    match typ
    case Executable => ExecutableMetadata(buildId)
    case Sources => SourcesMetadata(buildId)
    case _ => PlainMetadata(buildId)
  }

  /** Metadata share a place exactly if build id and type agree, but for source maps and plain debuginfos. */
  lemma SamePlace(a: string, t: DebuginfoType, b: string, u: DebuginfoType)
    ensures MetadataObjectPath(a, t) == MetadataObjectPath(b, u) <==>
      a == b && (t == u || (t in {Unspecified, SourceMap} && u in {Unspecified, SourceMap}))
  {
  }

  /** Every object lies where its own build id and type say. */
  ghost predicate Filed(bucket: map<MetadataPath, Debuginfo>) {
    forall p :: p in bucket ==> |bucket[p].buildId| > 0 && MetadataObjectPath(bucket[p].buildId, bucket[p].typ) == p
  }

  function At(bucket: map<MetadataPath, Debuginfo>, p: MetadataPath): Object {
    if p in bucket then Some(bucket[p]) else None
  }

  /** One object is replaced (objects are never removed), all others stay. */
  ghost predicate Replaced(before: map<MetadataPath, Debuginfo>, after: map<MetadataPath, Debuginfo>, p: MetadataPath,
      obj: Object) {
    At(after, p) == obj && forall q :: q != p ==> At(after, q) == At(before, q)
  }

  class ObjectStoreMetadata {
    var bucket: map<MetadataPath, Debuginfo>

    constructor ()
      ensures bucket == map[] && Filed(bucket)
    {
      bucket := map[];
    }

    function Fetch(buildId: string, typ: DebuginfoType): Object
      reads this
    {
      At(bucket, MetadataObjectPath(buildId, typ))
    }

    /** Metadata without a build id is refused. */
    method Write(d: Debuginfo) returns (ok: bool)
      modifies this
      ensures ok <==> d.buildId != ""
      ensures ok ==> bucket == old(bucket)[MetadataObjectPath(d.buildId, d.typ) := d]
      ensures !ok ==> bucket == old(bucket)
    {
      if d.buildId == "" {
        return false;
      }
      bucket := bucket[MetadataObjectPath(d.buildId, d.typ) := d];
      ok := true;
    }

    method SetQuality(buildId: string, typ: DebuginfoType, quality: Option<Quality>) returns (ok: bool)
      requires Filed(bucket)
      modifies this
      ensures Filed(bucket) && (ok <==> old(Fetch(buildId, typ)).Some?)
      ensures Replaced(old(bucket), bucket, MetadataObjectPath(buildId, typ),
                       DebuginfoProtocol.SetQuality(old(Fetch(buildId, typ)), quality))
    {
      var obj := Fetch(buildId, typ);
      if obj.None? {
        return false;
      }
      ok := Write(obj.value.(quality := quality));
    }

    method MarkAsDebuginfodSource(servers: seq<string>, buildId: string, typ: DebuginfoType) returns (ok: bool)
      requires Filed(bucket) && buildId != ""
      modifies this
      ensures ok && Filed(bucket)
      ensures Replaced(old(bucket), bucket, MetadataObjectPath(buildId, typ),
                       Some(Debuginfo(buildId, typ, FromDebuginfod, servers, None, None)))
    {
      ok := Write(Debuginfo(buildId, typ, FromDebuginfod, servers, None, None));
    }

    method MarkAsUploading(buildId: string, uploadId: UploadId, hash: string, typ: DebuginfoType,
        startedAt: int) returns (ok: bool)
      requires Filed(bucket) && buildId != ""
      modifies this
      ensures ok && Filed(bucket)
      ensures Replaced(old(bucket), bucket, MetadataObjectPath(buildId, typ),
                       Some(Debuginfo(buildId, typ, FromUpload, [],
                         Some(UploadRecord(uploadId, hash, Uploading, startedAt, None)), None)))
    {
      ok := Write(Debuginfo(buildId, typ, FromUpload, [],
        Some(UploadRecord(uploadId, hash, Uploading, startedAt, None)), None));
    }

    method MarkAsUploaded(buildId: string, uploadId: UploadId, typ: DebuginfoType, finishedAt: int) returns (r: Outcome)
      requires Filed(bucket) && !ShortId(buildId)
      modifies this
      ensures Filed(bucket)
      ensures
        var (obj, outcome) := Finish(old(Fetch(buildId, typ)), buildId, uploadId, finishedAt);
        r == outcome && Replaced(old(bucket), bucket, MetadataObjectPath(buildId, typ), obj)
    {
      var obj := Fetch(buildId, typ);
      if obj.None? {
        return Refused(Internal);
      }
      if obj.value.upload.None? {
        return Refused(NotFound);
      }
      if obj.value.upload.value.id != uploadId {
        return Refused(InvalidArgument);
      }
      var u := obj.value.upload.value;
      var ok := Write(obj.value.(upload := Some(u.(state := Uploaded, finishedAt := Some(finishedAt)))));
      r := Done;
    }

    method MarkAsPurged(buildId: string, typ: DebuginfoType) returns (ok: bool)
      requires Filed(bucket)
      modifies this
      ensures Filed(bucket)
      ensures ok <==> old(Fetch(buildId, typ)).Some? && old(Fetch(buildId, typ)).value.upload.Some?
      ensures Replaced(old(bucket), bucket, MetadataObjectPath(buildId, typ), Purge(old(Fetch(buildId, typ))))
    {
      var obj := Fetch(buildId, typ);
      if obj.None? || obj.value.upload.None? {
        return false;
      }
      ok := Write(obj.value.(upload := Some(obj.value.upload.value.(state := Purged))));
    }
  }

  class Store {
    const metadata: ObjectStoreMetadata
    const cfg: Config

    constructor (metadata: ObjectStoreMetadata, cfg: Config)
      ensures this.metadata == metadata && this.cfg == cfg
    {
      this.metadata, this.cfg := metadata, cfg;
    }

    /** Answers whether an upload is wanted; the first sight of a build id that debuginfod has is recorded. */
    method ShouldInitiateUpload(req: Request, lookup: Lookup, now: int) returns (r: Outcome)
      requires Filed(metadata.bucket)
      modifies metadata
      ensures Filed(metadata.bucket)
      ensures
        var (obj, outcome) := ShouldInitiate(cfg, old(metadata.Fetch(req.buildId, req.typ)), req, lookup, now);
        r == outcome && Replaced(old(metadata.bucket), metadata.bucket, MetadataObjectPath(req.buildId, req.typ), obj)
    {
      if ShortId(req.buildId) {
        return Refused(InvalidArgument);
      }
      var obj := metadata.Fetch(req.buildId, req.typ);
      if obj.None? {
        if req.buildIdType == Gnu || req.buildIdType == UnknownBuildId {
          if lookup.LookupFailed? {
            return Refused(Internal);
          }
          if |lookup.servers| > 0 {
            var ok := metadata.MarkAsDebuginfodSource(lookup.servers, req.buildId, req.typ);
            return Answer(false, InDebuginfod);
          }
        }
        return Answer(true, FirstTimeSeen);
      }
      var d := obj.value;
      match d.source {
        case FromUpload =>
          if d.upload.None? {
            return Refused(Internal);
          }
          match d.upload.value.state {
            case Uploading =>
              if req.force {
                return Answer(true, UploadInProgressButForced);
              }
              if IsStale(cfg, d.upload.value, now) {
                return Answer(true, UploadStale);
              }
              return Answer(false, UploadInProgress);
            case Uploaded =>
              if d.quality.None? || !d.quality.value.notValidElf {
                if req.force {
                  return Answer(true, AlreadyPresentButForced);
                }
                return Answer(false, AlreadyPresent);
              }
              if req.hash == "" {
                return Answer(true, Invalid);
              }
              if d.upload.value.hash == req.hash {
                return Answer(false, Equal);
              }
              return Answer(true, NotEqual);
            case Purged =>
              return Answer(true, WasPurged);
            case StateUnknown =>
              return Refused(Internal);
          }
        case FromDebuginfod =>
          if d.quality.None? || !d.quality.value.notValidElf {
            return Answer(false, DebuginfodSource);
          }
          return Answer(true, DebuginfodInvalid);
        case SourceUnknown =>
          return Refused(Internal);
      }
    }

    /** Issues the given new id after asking again; `signed` says whether the signing client succeeded. */
    method InitiateUpload(req: Request, size: int, lookup: Lookup, now: int, newId: UploadId,
        signed: bool) returns (r: Outcome)
      requires Filed(metadata.bucket)
      modifies metadata
      ensures Filed(metadata.bucket)
      ensures
        var (obj, outcome) :=
          Initiate(cfg, old(metadata.Fetch(req.buildId, req.typ)), req, size, lookup, now, newId, signed);
        r == outcome && Replaced(old(metadata.bucket), metadata.bucket, MetadataObjectPath(req.buildId, req.typ), obj)
    {
      hide Known;
      if req.hash == "" {
        return Refused(InvalidArgument);
      }
      if size == 0 {
        return Refused(InvalidArgument);
      }
      var answer := ShouldInitiateUpload(req, lookup, now);
      if !answer.Answer? {
        return answer;
      }
      if !answer.should {
        if answer.reason == Equal {
          return Refused(AlreadyExists);
        }
        return Refused(FailedPrecondition);
      }
      if size > cfg.maxUploadSize {
        return Refused(InvalidArgument);
      }
      if !cfg.signedUpload {
        var ok := metadata.MarkAsUploading(req.buildId, newId, req.hash, req.typ, now);
        return Issued(newId);
      }
      if !signed {
        return Refused(Internal);
      }
      var ok := metadata.MarkAsUploading(req.buildId, newId, req.hash, req.typ, now);
      return Issued(newId);
    }

    /** Whether the bytes of an upload are taken. */
    method UploadBytes(buildId: string, uploadId: UploadId, typ: DebuginfoType) returns (r: Outcome)
      ensures r == Upload(cfg, metadata.Fetch(buildId, typ), buildId, uploadId)
    {
      if cfg.signedUpload {
        return Refused(Unimplemented);
      }
      if ShortId(buildId) {
        return Refused(InvalidArgument);
      }
      var obj := metadata.Fetch(buildId, typ);
      if obj.None? {
        return Refused(FailedPrecondition);
      }
      if obj.value.upload.None? {
        return Refused(FailedPrecondition);
      }
      if obj.value.upload.value.id != uploadId {
        return Refused(InvalidArgument);
      }
      r := Done;
    }

    method MarkUploadFinished(buildId: string, uploadId: UploadId, typ: DebuginfoType, now: int) returns (r: Outcome)
      requires Filed(metadata.bucket)
      modifies metadata
      ensures Filed(metadata.bucket)
      ensures
        var (obj, outcome) := Finish(old(metadata.Fetch(buildId, typ)), buildId, uploadId, now);
        r == outcome && Replaced(old(metadata.bucket), metadata.bucket, MetadataObjectPath(buildId, typ), obj)
    {
      if ShortId(buildId) {
        return Refused(InvalidArgument);
      }
      r := metadata.MarkAsUploaded(buildId, uploadId, typ, now);
    }
  }
}
