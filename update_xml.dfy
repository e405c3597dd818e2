/**
 * The settings of an update.xml (class UpdateXmlBuilder): a complete or a
 * partial MAR is required, and every other setting that is missing or empty
 * takes its default. The build id defaults to the current time, which is an
 * argument here.
 */
module UpdateXml {
  import opened Wrappers

  const DefaultUrlTemplate := "http://localhost/%(filename)s"
  const DefaultUpdateType := "minor"
  const DefaultAppVersion := "99.0"
  const DefaultPlatformVersion := "99.0"
  const DefaultLicenseUrl := "http://www.mozilla.com/test/sample-eula.html"
  const DefaultDetailsUrl := "http://www.mozilla.com/test/sample-details.html"

  /** Python's `value or default` for an optional string: None and "" are false. */
  function Or(value: Option<string>, default: string): string
  {
    if value.Some? && value.value != "" then value.value else default
  }

  /** `value` was passed and is not empty. */
  predicate Given(value: Option<string>)
  {
    value.Some? && value.value != ""
  }

  class UpdateXmlBuilder {
    const completeMar: Option<string>
    const partialMar: Option<string>
    const urlTemplate: string
    const updateType: string
    const appVersion: string
    const platformVersion: string
    const buildId: string
    const licenseUrl: string
    const detailsUrl: string
    const isFotaUpdate: bool

    /** At least one of the two MARs is known. */
    predicate Valid()
    {
      completeMar.Some? || partialMar.Some?
    }

    /** The field assignments of __init__ once its check has passed; now is generate_build_id()'s timestamp. */
    constructor (completeMar: Option<string>, partialMar: Option<string>, urlTemplate: Option<string>,
                 updateType: Option<string>, appVersion: Option<string>, platformVersion: Option<string>,
                 buildId: Option<string>, licenseUrl: Option<string>, detailsUrl: Option<string>,
                 isFotaUpdate: bool, now: string)
      requires completeMar.Some? || partialMar.Some?
      ensures Valid()
      ensures this.completeMar == completeMar && this.partialMar == partialMar
      ensures this.urlTemplate == Or(urlTemplate, DefaultUrlTemplate)
      ensures this.updateType == Or(updateType, DefaultUpdateType)
      ensures this.appVersion == Or(appVersion, DefaultAppVersion)
      ensures this.platformVersion == Or(platformVersion, DefaultPlatformVersion)
      ensures this.buildId == Or(buildId, now)
      ensures this.licenseUrl == Or(licenseUrl, DefaultLicenseUrl)
      ensures this.detailsUrl == Or(detailsUrl, DefaultDetailsUrl)
      ensures this.isFotaUpdate == isFotaUpdate
    {
      this.completeMar := completeMar;
      this.partialMar := partialMar;
      this.urlTemplate := Or(urlTemplate, DefaultUrlTemplate);
      this.updateType := Or(updateType, DefaultUpdateType);
      this.appVersion := Or(appVersion, DefaultAppVersion);
      this.platformVersion := Or(platformVersion, DefaultPlatformVersion);
      this.buildId := Or(buildId, now);
      this.licenseUrl := Or(licenseUrl, DefaultLicenseUrl);
      this.detailsUrl := Or(detailsUrl, DefaultDetailsUrl);
      this.isFotaUpdate := isFotaUpdate;
    }
  }

  /**
   * UpdateXmlBuilder(...): UpdateException when neither MAR is given (an
   * empty name counts as given); otherwise a builder whose settings are the
   * ones passed, or their defaults for those missing or empty.
   */
  method NewUpdateXmlBuilder(completeMar: Option<string>, partialMar: Option<string>, urlTemplate: Option<string>,
                             updateType: Option<string>, appVersion: Option<string>, platformVersion: Option<string>,
                             buildId: Option<string>, licenseUrl: Option<string>, detailsUrl: Option<string>,
                             isFotaUpdate: bool, now: string)
    returns (r: Result<UpdateXmlBuilder>)
    ensures r.Failure? <==> completeMar.None? && partialMar.None?
    ensures r.Failure? ==> r.error == UpdateError("either complete_mar or partial_mar is required")
    ensures r.Success? ==>
              var b := r.value;
              && fresh(b) && b.Valid()
              && b.completeMar == completeMar && b.partialMar == partialMar
              && (Given(urlTemplate) ==> b.urlTemplate == urlTemplate.value)
              && (!Given(urlTemplate) ==> b.urlTemplate == DefaultUrlTemplate)
              && (Given(updateType) ==> b.updateType == updateType.value)
              && (!Given(updateType) ==> b.updateType == DefaultUpdateType)
              && (Given(appVersion) ==> b.appVersion == appVersion.value)
              && (!Given(appVersion) ==> b.appVersion == DefaultAppVersion)
              && (Given(platformVersion) ==> b.platformVersion == platformVersion.value)
              && (!Given(platformVersion) ==> b.platformVersion == DefaultPlatformVersion)
              && (Given(buildId) ==> b.buildId == buildId.value)
              && (!Given(buildId) ==> b.buildId == now)
              && (Given(licenseUrl) ==> b.licenseUrl == licenseUrl.value)
              && (!Given(licenseUrl) ==> b.licenseUrl == DefaultLicenseUrl)
              && (Given(detailsUrl) ==> b.detailsUrl == detailsUrl.value)
              && (!Given(detailsUrl) ==> b.detailsUrl == DefaultDetailsUrl)
              && b.isFotaUpdate == isFotaUpdate
  {
    if completeMar.None? && partialMar.None? {
      return Failure(UpdateError("either complete_mar or partial_mar is required"));
    }
    var b := new UpdateXmlBuilder(completeMar, partialMar, urlTemplate, updateType, appVersion, platformVersion,
                                  buildId, licenseUrl, detailsUrl, isFotaUpdate, now);
    r := Success(b);
  }
}
