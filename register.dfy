/**
 * The record of one sale as read from the register's CSV file
 * (`RawPropertySale`, app/property_price_register.py).  Every field is the
 * text of one column; the sanitiser rewrites some of them in place.
 */
module Register {

  class RawPropertySale {
    /** A fresh random identifier; the caller supplies it in place of `uuid4()`. */
    var appId: string
    var date: string
    var address: string
    var postcode: string
    var county: string
    var price: string
    var notFullPrice: string
    var vatExclusive: string
    var propertyDescription: string
    var sizeDescription: string

    constructor(appId: string, date: string, address: string, postcode: string, county: string,
                price: string, notFullPrice: string, vatExclusive: string,
                propertyDescription: string, sizeDescription: string)
      ensures this.appId == appId && this.date == date && this.address == address
      ensures this.postcode == postcode && this.county == county && this.price == price
      ensures this.notFullPrice == notFullPrice && this.vatExclusive == vatExclusive
      ensures this.propertyDescription == propertyDescription && this.sizeDescription == sizeDescription
    {
      this.appId := appId;
      this.date := date;
      this.address := address;
      this.postcode := postcode;
      this.county := county;
      this.price := price;
      this.notFullPrice := notFullPrice;
      this.vatExclusive := vatExclusive;
      this.propertyDescription := propertyDescription;
      this.sizeDescription := sizeDescription;
    }
  }
}
