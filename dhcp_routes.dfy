/** backend/src/routes/dhcp.js: the checks each request goes through, in
    order, before the static-mapping service is called. The IP validator
    (validateStaticIP) is not part of this model: it is a parameter that
    maps an IP and the optional current IP to an error message, if any. */
module DhcpRoutes {
  import opened Js
  import opened MacAddress

  /** validateStaticIP(ip, currentIP): an error message, or none. */
  type Validator = (string, Option<string>) -> Option<string>

  /** The route's answer: a refusal with its status and error, or the
      service call the route goes on to make. */
  datatype Outcome =
    | Reject(status: nat, error: string)
    | SetMapping(mac: string, ip: string, hostname: Option<string>)
    | DeleteMapping(mac: string)

  /** The answer of POST /validate-ip: 400 when the IP is missing, otherwise
      a normal response saying whether the validator accepted it. */
  datatype IpVerdict = IpMissing | Verdict(valid: bool, error: Option<string>)

  const MacRequired: string := "MAC address is required"
  const IpRequired: string := "IP address is required"

  /** A validator's answer counts as an error when it is a non-empty string. */
  predicate Refuses(validate: Validator, ip: string, currentIp: Option<string>) {
    Truthy(validate(ip, currentIp))
  }

  /** POST /static. The first failed check decides: a missing MAC, then a
      missing IP, then a malformed MAC, then the validator's error; only a
      request that passes all four reaches setStaticDHCPMapping. */
  function PostStatic(mac: Option<string>, ip: Option<string>, hostname: Option<string>,
                      validate: Validator): (r: Outcome)
    ensures !Truthy(mac) ==> r == Reject(400, MacRequired)
    ensures Truthy(mac) && !Truthy(ip) ==> r == Reject(400, IpRequired)
    ensures Truthy(mac) && Truthy(ip) && !MatchesMacPattern(mac.value) ==> r == Reject(400, InvalidMacFormat)
    ensures Truthy(mac) && Truthy(ip) && MatchesMacPattern(mac.value) && Refuses(validate, ip.value, None) ==>
              r == Reject(400, validate(ip.value, None).value)
    ensures r.SetMapping? <==> AcceptedMac(mac) && Truthy(ip) && !Refuses(validate, ip.value, None)
    ensures r.SetMapping? ==> r == SetMapping(mac.value, ip.value, hostname)
    ensures !r.DeleteMapping?
  {
    if !Truthy(mac) then Reject(400, MacRequired)
    else if !Truthy(ip) then Reject(400, IpRequired)
    else if !MatchesMacPattern(mac.value) then Reject(400, InvalidMacFormat)
    else
      var validationError := validate(ip.value, None);
      if Truthy(validationError) then Reject(400, validationError.value)
      else SetMapping(mac.value, ip.value, hostname)
  }

  /** DELETE /static/:mac: only the presence of the MAC is checked. */
  function DeleteStatic(mac: Option<string>): (r: Outcome)
    ensures r == Reject(400, MacRequired) <==> !Truthy(mac)
    ensures Truthy(mac) ==> r == DeleteMapping(mac.value)
    ensures !r.SetMapping?
  {
    if !Truthy(mac) then Reject(400, MacRequired)
    else DeleteMapping(mac.value)
  }

  /** POST /validate-ip. */
  function ValidateIp(ip: Option<string>, currentIp: Option<string>, validate: Validator): (r: IpVerdict)
    ensures r.IpMissing? <==> !Truthy(ip)
    ensures r.Verdict? ==> (r.valid <==> !Refuses(validate, ip.value, currentIp))
    ensures r.Verdict? && !r.valid ==> r.error == validate(ip.value, currentIp)
    ensures r.Verdict? && r.valid ==> r.error.None?
  {
    if !Truthy(ip) then IpMissing
    else
      var validationError := validate(ip.value, currentIp);
      if Truthy(validationError) then Verdict(false, validationError)
      else Verdict(true, None)
  }

  /** The format check of POST /static is the one the client routes use: a
      request that names its MAC and IP and that the validator accepts is
      forwarded exactly when the MAC is a well-formed MAC address. */
  lemma PostStaticFormatIsMacPattern(mac: string, ip: string, hostname: Option<string>, validate: Validator)
    requires ip != "" && !Refuses(validate, ip, None)
    ensures PostStatic(Some(mac), Some(ip), hostname, validate).SetMapping? <==> WellFormedMac(mac)
  {
    AcceptedIffPattern(Some(mac));
  }

  /** DELETE never looks at the format: a MAC that POST /static refuses as
      malformed is still passed to deleteStaticDHCPMapping. */
  lemma DeleteSkipsFormat(mac: string, ip: string, hostname: Option<string>, validate: Validator)
    requires mac != "" && ip != "" && !WellFormedMac(mac)
    ensures PostStatic(Some(mac), Some(ip), hostname, validate) == Reject(400, InvalidMacFormat)
    ensures DeleteStatic(Some(mac)) == DeleteMapping(mac)
  {
    MacPatternIsPositional(mac);
  }

  /** The validator's verdict on an IP is not an HTTP error: once the IP is
      present, POST /validate-ip answers normally whatever the validator
      says, while POST /static turns the same error into a 400. */
  lemma ValidatorErrorIsNotAnHttpError(mac: string, ip: string, validate: Validator)
    requires ip != "" && AcceptedMac(Some(mac)) && Refuses(validate, ip, None)
    ensures ValidateIp(Some(ip), None, validate) == Verdict(false, validate(ip, None))
    ensures PostStatic(Some(mac), Some(ip), None, validate) == Reject(400, validate(ip, None).value)
  {
  }
}
